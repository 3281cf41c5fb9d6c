/** When the greedy search for CRTCs in xMonitorManager.apply can fail: the loop visits the monitors in any
    order and takes any free CRTC that can drive the one at hand. */
module XorgSearch {
  import opened RandR
  import opened XorgPlan

  /** The monitor at hand may take the CRTC. */
  ghost predicate IsAvailable(crtcs: CrtcTable, outputs: OutputTable, ms: MonitorMap, alloc: map<Output, Crtc>,
                              o: Output, c: Crtc) {
    c in crtcs && c in Free(crtcs, outputs, ms) && c !in alloc.Values && o in crtcs[c].possibleOutputs
  }

  /** One visit: a newcomer takes an available CRTC, any other monitor none. */
  ghost predicate Picks(crtcs: CrtcTable, outputs: OutputTable, ms: MonitorMap, alloc: map<Output, Crtc>,
                        o: Output, alloc': map<Output, Crtc>) {
    if o in Newcomers(outputs, ms)
    then exists c :: IsAvailable(crtcs, outputs, ms, alloc, o, c) && alloc' == alloc[o := c]
    else alloc' == alloc
  }

  ghost predicate LastPicks(crtcs: CrtcTable, outputs: OutputTable, ms: MonitorMap, before: map<Output, Crtc>,
                            order: seq<Output>, alloc: map<Output, Crtc>)
    requires order != []
  {
    Picks(crtcs, outputs, ms, before, order[|order| - 1], alloc)
  }

  /** The monitors have been visited in this order, with these CRTCs handed out. */
  ghost predicate Visited(crtcs: CrtcTable, outputs: OutputTable, ms: MonitorMap, order: seq<Output>,
                          alloc: map<Output, Crtc>)
    decreases |order|
  {
    if order == [] then alloc == map[]
    else
      exists before ::
        Visited(crtcs, outputs, ms, order[..|order| - 1], before) && LastPicks(crtcs, outputs, ms, before, order, alloc)
  }

  ghost predicate Distinct(order: seq<Output>) { forall i, j | 0 <= i < j < |order| :: order[i] != order[j] }

  /** An order in which the loop can visit the monitors. */
  ghost predicate IsOrder(order: seq<Output>, ms: MonitorMap) {
    Distinct(order) && forall o :: o in order <==> o in ms
  }

  /** The k-th visit finds no CRTC. */
  ghost predicate FailsAt(crtcs: CrtcTable, outputs: OutputTable, ms: MonitorMap, order: seq<Output>, k: nat,
                          alloc: map<Output, Crtc>) {
    && k < |order| && Visited(crtcs, outputs, ms, order[..k], alloc)
    && order[k] in Newcomers(outputs, ms)
    && forall c :: !IsAvailable(crtcs, outputs, ms, alloc, order[k], c)
  }

  ghost predicate SomeOrderFails(crtcs: CrtcTable, outputs: OutputTable, ms: MonitorMap) {
    exists order, k: nat, alloc :: IsOrder(order, ms) && FailsAt(crtcs, outputs, ms, order, k, alloc)
  }

  ghost predicate Starves(crtcs: CrtcTable, outputs: OutputTable, ms: MonitorMap, alloc: map<Output, Crtc>, o: Output) {
    && IsAllotment(crtcs, outputs, ms, alloc) && o !in alloc
    && forall c | c in crtcs && c in Free(crtcs, outputs, ms) && o in crtcs[c].possibleOutputs :: c in alloc.Values
  }

  /** All free CRTCs that can drive the newcomer can be handed to other newcomers. */
  ghost predicate CanBeStarved(crtcs: CrtcTable, outputs: OutputTable, ms: MonitorMap, o: Output) {
    exists alloc: map<Output, Crtc> :: Starves(crtcs, outputs, ms, alloc, o)
  }

  /** Whatever the visits hand out is an allotment to those visited. */
  lemma {:induction false} VisitedIsAllotment(crtcs: CrtcTable, outputs: OutputTable, ms: MonitorMap,
                                              order: seq<Output>, alloc: map<Output, Crtc>)
    requires Distinct(order) && Visited(crtcs, outputs, ms, order, alloc)
    ensures IsAllotment(crtcs, outputs, ms, alloc) && forall o | o in alloc :: o in order
    decreases |order|
  {
    hide Newcomers, Free;
    if order != [] {
      var n := |order| - 1;
      var before :| && Visited(crtcs, outputs, ms, order[..n], before)
                    && LastPicks(crtcs, outputs, ms, before, order, alloc);
      VisitedIsAllotment(crtcs, outputs, ms, order[..n], before);
      if order[n] in Newcomers(outputs, ms) {
        var c :| IsAvailable(crtcs, outputs, ms, before, order[n], c) && alloc == before[order[n] := c];
        var allotted := Allot(crtcs, outputs, ms, before, order[n], c);
      }
    }
  }

  lemma TakenBack(crtcs: CrtcTable, outputs: OutputTable, ms: MonitorMap, alloc: map<Output, Crtc>, o: Output)
    requires IsAllotment(crtcs, outputs, ms, alloc) && o in alloc
    ensures var rest := alloc - {o};
            && |rest| < |alloc| && IsAllotment(crtcs, outputs, ms, rest)
            && o in Newcomers(outputs, ms) && IsAvailable(crtcs, outputs, ms, rest, o, alloc[o])
            && alloc == rest[o := alloc[o]]
  {
    hide Newcomers, Free;
    var rest := alloc - {o};
    assert rest.Keys == alloc.Keys - {o};
    assert |rest| == |rest.Keys| && |alloc| == |alloc.Keys|;
  }

  /** Every allotment is what some order of visits hands out. */
  lemma {:induction false} AllotmentIsVisited(crtcs: CrtcTable, outputs: OutputTable, ms: MonitorMap,
                                              alloc: map<Output, Crtc>) returns (order: seq<Output>)
    requires IsAllotment(crtcs, outputs, ms, alloc)
    ensures Distinct(order) && (forall o :: o in order <==> o in alloc)
    ensures Visited(crtcs, outputs, ms, order, alloc)
    decreases |alloc|
  {
    hide Newcomers, IsAllotment, IsAvailable;
    if alloc == map[] {
      order := [];
    } else {
      var o :| o in alloc;
      var rest := alloc - {o};
      TakenBack(crtcs, outputs, ms, alloc, o);
      var init := AllotmentIsVisited(crtcs, outputs, ms, rest);
      order := init + [o];
      assert order[..|order| - 1] == init && order[|order| - 1] == o;
      assert Picks(crtcs, outputs, ms, rest, o, alloc);
      assert LastPicks(crtcs, outputs, ms, rest, order, alloc);
    }
  }

  lemma {:induction false} Enumerated(s: set<Output>) returns (r: seq<Output>)
    ensures Distinct(r) && forall o :: o in r <==> o in s
    decreases |s|
  {
    if s == {} {
      r := [];
    } else {
      var o :| o in s;
      var init := Enumerated(s - {o});
      r := init + [o];
    }
  }

  lemma FailureStarves(crtcs: CrtcTable, outputs: OutputTable, ms: MonitorMap, order: seq<Output>, k: nat,
                       alloc: map<Output, Crtc>)
    requires IsOrder(order, ms) && FailsAt(crtcs, outputs, ms, order, k, alloc)
    ensures order[k] in Newcomers(outputs, ms) && CanBeStarved(crtcs, outputs, ms, order[k])
  {
    hide IsAllotment, Free, Newcomers;
    VisitedIsAllotment(crtcs, outputs, ms, order[..k], alloc);
    forall o | o in alloc ensures o != order[k] {
      var j :| 0 <= j < k && order[..k][j] == o;
    }
    assert Starves(crtcs, outputs, ms, alloc, order[k]) by {
      forall c | c in crtcs && c in Free(crtcs, outputs, ms) && order[k] in crtcs[c].possibleOutputs
        ensures c in alloc.Values
      {
        assert !IsAvailable(crtcs, outputs, ms, alloc, order[k], c);
      }
    }
  }

  lemma OrderIsWhole(first: seq<Output>, o: Output, last: seq<Output>)
    requires Distinct(first) && Distinct(last) && o !in first && o !in last && forall p | p in first :: p !in last
    ensures Distinct(first + [o] + last)
  {
    var order, k := first + [o] + last, |first|;
    forall i, j | 0 <= i < j < |order| ensures order[i] != order[j] {
      assert i < k ==> order[i] == first[i] && first[i] in first;
      assert j < k ==> order[j] == first[j];
      assert i > k ==> order[i] == last[i - k - 1];
      assert j > k ==> order[j] == last[j - k - 1] && last[j - k - 1] in last;
    }
  }

  lemma StarvingFails(crtcs: CrtcTable, outputs: OutputTable, ms: MonitorMap, alloc: map<Output, Crtc>, o: Output)
    requires o in Newcomers(outputs, ms) && Starves(crtcs, outputs, ms, alloc, o)
    ensures SomeOrderFails(crtcs, outputs, ms)
  {
    hide Free;
    var first := AllotmentIsVisited(crtcs, outputs, ms, alloc);
    var last := Enumerated(ms.Keys - alloc.Keys - {o});
    var order, k := first + [o] + last, |first|;
    assert order[..k] == first && order[k] == o;
    assert IsOrder(order, ms) by {
      assert forall p | p in alloc :: p in ms;
      OrderIsWhole(first, o, last);
    }
    assert FailsAt(crtcs, outputs, ms, order, k, alloc);
  }

  /** In some order, with some picks, "failed to find free crtc" is the outcome exactly when some newcomer can
      be starved. */
  lemma SomeOrderFailsIff(crtcs: CrtcTable, outputs: OutputTable, ms: MonitorMap)
    ensures SomeOrderFails(crtcs, outputs, ms) <==>
              exists o :: o in Newcomers(outputs, ms) && CanBeStarved(crtcs, outputs, ms, o)
  {
    hide IsAllotment, Free;
    if SomeOrderFails(crtcs, outputs, ms) {
      var order, k: nat, alloc :| IsOrder(order, ms) && FailsAt(crtcs, outputs, ms, order, k, alloc);
      FailureStarves(crtcs, outputs, ms, order, k, alloc);
    }
    if o :| o in Newcomers(outputs, ms) && CanBeStarved(crtcs, outputs, ms, o) {
      var alloc: map<Output, Crtc> :| Starves(crtcs, outputs, ms, alloc, o);
      StarvingFails(crtcs, outputs, ms, alloc, o);
    }
  }

  /** The stuck allotments of the plan are those that starve someone. */
  lemma StuckIffStarving(crtcs: CrtcTable, outputs: OutputTable, ms: MonitorMap, alloc: map<Output, Crtc>)
    ensures IsStuck(crtcs, outputs, ms, alloc) <==>
              exists o :: o in Newcomers(outputs, ms) && Starves(crtcs, outputs, ms, alloc, o)
  {
    hide Free, IsAllotment, Newcomers;
    if IsStuck(crtcs, outputs, ms, alloc) {
      var o :| o in Newcomers(outputs, ms) - alloc.Keys &&
               forall c | c in crtcs && c in Free(crtcs, outputs, ms) - alloc.Values :: o !in crtcs[c].possibleOutputs;
      assert Starves(crtcs, outputs, ms, alloc, o);
    }
    if o :| o in Newcomers(outputs, ms) && Starves(crtcs, outputs, ms, alloc, o) {
      assert o in Newcomers(outputs, ms) - alloc.Keys;
    }
  }
}
