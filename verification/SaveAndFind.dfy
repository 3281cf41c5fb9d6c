/** Where a save puts a configuration, and which later look-up finds it there (save and
    getSuitableSysMonitorConfigs in display/manager.go). */
module SaveAndFind {
  import opened DisplayConfig
  import opened Transaction

  /** Where, in the screen of the connected monitors, their configuration is kept. */
  datatype Place = Nowhere | Single | Mirror | Extend | Only(uuid: string)

  function PlaceOf(mode: int, ms: seq<Connected>): Place {
    if ms == [] then Nowhere
    else if |ms| == 1 then Single
    else if mode == MODE_MIRROR then Mirror
    else if mode == MODE_EXTEND then Extend
    else if OnlyOneUuid(mode, ms) != "" then Only(OnlyOneUuid(mode, ms))
    else Nowhere
  }

  function At(s: ScreenConfig, p: Place): seq<MonitorConfig> {
    match p
    case Nowhere => []
    case Single => ModeConfigs(s.single)
    case Mirror => ModeConfigs(s.mirror)
    case Extend => ModeConfigs(s.extend)
    case Only(uuid) => if uuid in s.onlyOneMap then ModeConfigs(s.onlyOneMap[uuid]) else []
  }

  lemma {:induction false} OnlyOneModeOnly(mode: int, ms: seq<Connected>)
    ensures mode != MODE_ONLY_ONE ==> OnlyOneUuid(mode, ms) == ""
  {
  }

  lemma SuitableIsAtPlace(screens: Screens, mode: int, ms: seq<Connected>)
    ensures Suitable(screens, mode, ms) == At(Stored(screens, IdOf(ms).v1), PlaceOf(mode, ms))
  {
    hide IdOf, Stored;
    OnlyOneModeOnly(mode, ms);
  }

  /** Saving replaces what is at one place and nothing else; of several configurations for the only-one mode it
      keeps one. */
  lemma SavedAtPlace(t: T, ms: seq<Connected>, writeOk: bool, p: Place)
    requires Stores(t, ms)
    ensures At(Stored(Saved(t, ms, writeOk).screens, IdOf(ms).v1), p) ==
              if p == PlaceOf(t.displayMode, ms) && p != Nowhere
              then if p.Only? then OnlyOne(t.future) else t.future
              else At(Stored(t.screens, IdOf(ms).v1), p)
  {
    hide IdOf, OnlyOne;
    OnlyOneModeOnly(t.displayMode, ms);
  }

  predicate LooksWhereSaved(mode: int, ms: seq<Connected>, mode': int, ms': seq<Connected>) {
    IdOf(ms').v1 == IdOf(ms).v1 && PlaceOf(mode', ms') == PlaceOf(mode, ms) != Nowhere
  }

  lemma OtherScreensStay(t: T, ms: seq<Connected>, writeOk: bool, key: string)
    requires key != IdOf(ms).v1
    ensures Stored(Saved(t, ms, writeOk).screens, key) == Stored(t.screens, key)
  {
    SaveTouchesOneScreen(t, ms, writeOk, key);
  }

  lemma OnlyOneIsAllIff(cfgs: seq<MonitorConfig>)
    requires SomeEnabled(cfgs)
    ensures OnlyOne(cfgs) == cfgs <==> |cfgs| == 1
  {
    assert FirstEnabled(cfgs).Some?;
    if |cfgs| > 1 {
      assert |OnlyOne(cfgs)| == 1;
    }
  }

  /** What a look-up for the monitors `ms'`, in the mode `mode'`, finds after a save for `ms`: just what was saved,
      exactly when it looks at the place where the save put it and, in the only-one mode, that is a single
      configuration; or when it looks elsewhere and the same was there before. */
  lemma SavedIsGivenIff(t: T, ms: seq<Connected>, writeOk: bool, mode': int, ms': seq<Connected>)
    requires Stores(t, ms) && SomeEnabled(t.future)
    ensures Suitable(Saved(t, ms, writeOk).screens, mode', ms') == t.future <==>
              if LooksWhereSaved(t.displayMode, ms, mode', ms')
              then PlaceOf(mode', ms').Only? ==> |t.future| == 1
              else Suitable(t.screens, mode', ms') == t.future
  {
    hide IdOf, Stores, Saved, Suitable, PlaceOf, At, Stored, WithSuitable;
    SuitableIsAtPlace(Saved(t, ms, writeOk).screens, mode', ms');
    SuitableIsAtPlace(t.screens, mode', ms');
    if IdOf(ms').v1 == IdOf(ms).v1 {
      SavedAtPlace(t, ms, writeOk, PlaceOf(mode', ms'));
    } else {
      OtherScreensStay(t, ms, writeOk, IdOf(ms').v1);
    }
    OnlyOneIsAllIff(t.future);
  }

  /** After the save, these monitors, listed like this, are given what was saved. */
  predicate IsFound(t: T, ms: seq<Connected>, writeOk: bool, ms': seq<Connected>) {
    Suitable(Saved(t, ms, writeOk).screens, t.displayMode, ms') == t.future
  }

  /** The same mode and the same monitors, listed in some other order: what was saved is found in the single, the
      mirror and the extend mode. In the only-one mode it is found exactly when it is a single configuration and the
      same enabled monitor is listed first, or the same was already there for the one that is. */
  lemma SavedIsFoundIff(t: T, ms: seq<Connected>, writeOk: bool, ms': seq<Connected>)
    requires Stores(t, ms) && SomeEnabled(t.future) && multiset(ms') == multiset(ms)
    ensures IsFound(t, ms, writeOk, ms') <==>
              match PlaceOf(t.displayMode, ms)
              case Nowhere => Suitable(t.screens, t.displayMode, ms') == t.future
              case Only(uuid) =>
                if OnlyOneUuid(t.displayMode, ms') == uuid then |t.future| == 1
                else Suitable(t.screens, t.displayMode, ms') == t.future
              case _ => true
  {
    hide IdOf, Suitable, Saved;
    assert |multiset(ms)| == |ms| && |multiset(ms')| == |ms'|;
    IdIgnoresOrder(ms, ms');
    SavedIsGivenIff(t, ms, writeOk, t.displayMode, ms');
    OnlyOneModeOnly(t.displayMode, ms);
    OnlyOneModeOnly(t.displayMode, ms');
    SuitableIsAtPlace(t.screens, t.displayMode, ms');
  }

  predicate SomeOn(ms: seq<Connected>) { exists m :: m in ms && m.enabled }

  /** The only-one mode finds what was saved when the listing puts this enabled monitor first. */
  predicate FoundUnder(t: T, ms: seq<Connected>, uuid: string) {
    if uuid == OnlyOneUuid(MODE_ONLY_ONE, ms) then uuid != "" && |t.future| == 1
    else ConfigsFor(Stored(t.screens, IdOf(ms).v1), MODE_ONLY_ONE, uuid) == t.future
  }

  lemma PutFirst(ms: seq<Connected>, m: Connected)
    requires m in ms && m.enabled
    ensures multiset([m] + Remove(ms, m)) == multiset(ms)
    ensures m in [m] + Remove(ms, m) && OnlyOneUuid(MODE_ONLY_ONE, [m] + Remove(ms, m)) == m.uuid
  {
    RemoveTakesOne(ms, m);
  }

  lemma SameMembers(ms: seq<Connected>, ms': seq<Connected>)
    requires multiset(ms) == multiset(ms')
    ensures forall m :: m in ms <==> m in ms'
  {
    forall m ensures m in ms <==> m in ms' {
      assert m in ms <==> m in multiset(ms);
    }
  }

  /** SavedIsFoundIff, told by the first enabled monitor. */
  predicate FoundInOrder(t: T, ms: seq<Connected>, ms': seq<Connected>) {
    || |ms| == 1 || t.displayMode in {MODE_MIRROR, MODE_EXTEND}
    || (&& t.displayMode == MODE_ONLY_ONE && SomeOn(ms')
        && FoundUnder(t, ms, OnlyOneUuid(t.displayMode, ms')))
  }

  lemma {:induction false} FirstEnabledIs(mode: int, ms: seq<Connected>)
    requires mode == MODE_ONLY_ONE
    ensures if SomeOn(ms)
            then exists m :: m in ms && m.enabled && m.uuid == OnlyOneUuid(mode, ms)
            else OnlyOneUuid(mode, ms) == ""
  {
    if ms != [] && !ms[0].enabled {
      FirstEnabledIs(mode, ms[1..]);
    }
  }

  lemma FoundInOrderIff(t: T, ms: seq<Connected>, writeOk: bool, ms': seq<Connected>)
    requires Stores(t, ms) && SomeEnabled(t.future) && multiset(ms') == multiset(ms)
    ensures IsFound(t, ms, writeOk, ms') <==> FoundInOrder(t, ms, ms')
  {
    hide IdOf, Saved, Stored;
    SavedIsFoundIff(t, ms, writeOk, ms');
    IdIgnoresOrder(ms, ms');
    OnlyOneModeOnly(t.displayMode, ms');
    if t.displayMode == MODE_ONLY_ONE {
      FirstEnabledIs(t.displayMode, ms');
    }
    assert |multiset(ms)| == |ms| && |multiset(ms')| == |ms'|;
  }

  /** The order is arbitrary. What was saved is found in every order exactly in a mode other than the only-one mode
      that has a place, or if the only-one mode would find it under each of the enabled monitors. */
  lemma AlwaysFoundIff(t: T, ms: seq<Connected>, writeOk: bool)
    requires Stores(t, ms) && SomeEnabled(t.future)
    ensures (forall ms' | multiset(ms') == multiset(ms) :: IsFound(t, ms, writeOk, ms'))
       <==> || |ms| == 1 || t.displayMode in {MODE_MIRROR, MODE_EXTEND}
            || (&& t.displayMode == MODE_ONLY_ONE && SomeOn(ms)
                && forall m | m in ms && m.enabled :: FoundUnder(t, ms, m.uuid))
  {
    hide IdOf, SomeEnabled, Stores, FoundUnder, IsFound;
    forall ms' | multiset(ms') == multiset(ms) ensures IsFound(t, ms, writeOk, ms') <==> FoundInOrder(t, ms, ms') {
      FoundInOrderIff(t, ms, writeOk, ms');
    }
    assert IsFound(t, ms, writeOk, ms) <==> FoundInOrder(t, ms, ms);
    if |ms| != 1 && t.displayMode == MODE_ONLY_ONE {
      forall m | m in ms && m.enabled
        ensures (forall ms' | multiset(ms') == multiset(ms) :: IsFound(t, ms, writeOk, ms')) ==>
                  FoundUnder(t, ms, m.uuid)
      {
        PutFirst(ms, m);
        assert IsFound(t, ms, writeOk, [m] + Remove(ms, m)) <==> FoundInOrder(t, ms, [m] + Remove(ms, m));
      }
      forall ms': seq<Connected> | multiset(ms') == multiset(ms)
        ensures SomeOn(ms') <==> SomeOn(ms)
        ensures SomeOn(ms) ==> exists m :: m in ms && m.enabled && m.uuid == OnlyOneUuid(MODE_ONLY_ONE, ms')
      {
        FirstEnabledIs(MODE_ONLY_ONE, ms');
        SameMembers(ms, ms');
      }
    }
  }

  // ---- After a change of the display mode ----

  /** Changing the display mode does not drop it either. After an apply, a change to any mode, and a save for the
      same monitors, listed as they may be: what was applied is found in a mode exactly when that mode looks where
      the save put it, which the mode at the time of the apply has no part in. */
  lemma SavedUnderAnotherMode(t: T, ms: seq<Connected>, key: string, screen: ScreenConfig, mode: int,
                              saved: seq<Connected>, writeOk: bool, mode': int, ms': seq<Connected>)
    requires Applies(t, ms, true) && saved != [] && IdOf(saved) == IdOf(ms)
    ensures var u := Next(Next(t, ApplyChanges(ms, true)), Store(key, screen, mode));
            && Stores(u, saved)
            && (Suitable(Next(u, Save(saved, writeOk)).screens, mode', ms') == ToApply(t, ms) <==>
                  if LooksWhereSaved(mode, saved, mode', ms')
                  then PlaceOf(mode', ms').Only? ==> |ToApply(t, ms)| == 1
                  else Suitable(t.screens[key := Some(screen)], mode', ms') == ToApply(t, ms))
  {
    hide IdOf, ToApply, Suitable, Saved, PlaceOf, LooksWhereSaved;
    var u := Next(Next(t, ApplyChanges(ms, true)), Store(key, screen, mode));
    SavedIsGivenIff(u, saved, writeOk, mode', ms');
  }

  /** So with several monitors a configuration applied in the extend mode is saved as the one of the mirror mode, and
      the extend mode is given it back exactly when the screen stored meanwhile had it there. */
  lemma ExtendSavedAsMirror(t: T, ms: seq<Connected>, key: string, screen: ScreenConfig)
    requires |ms| > 1 && Applies(t, ms, true) && t.displayMode == MODE_EXTEND && key == IdOf(ms).v1
    ensures var u := Next(Next(t, ApplyChanges(ms, true)), Store(key, screen, MODE_MIRROR));
            var after := Next(u, Save(ms, true)).screens;
            && Suitable(after, MODE_MIRROR, ms) == ToApply(t, ms)
            && (Suitable(after, MODE_EXTEND, ms) == ToApply(t, ms) <==> ModeConfigs(screen.extend) == ToApply(t, ms))
  {
    hide IdOf, ToApply, Saved;
    SavedUnderAnotherMode(t, ms, key, screen, MODE_MIRROR, ms, true, MODE_MIRROR, ms);
    SavedUnderAnotherMode(t, ms, key, screen, MODE_MIRROR, ms, true, MODE_EXTEND, ms);
  }

  /** Two enabled monitors in the only-one mode, and nothing stored for the second: what is saved for them listed one
      way is not found when they are listed the other way. */
  lemma ListingLosesSaved(t: T, a: Connected, b: Connected, writeOk: bool)
    requires a.enabled && b.enabled && a.uuid != b.uuid
    requires Stores(t, [a, b]) && SomeEnabled(t.future)
    requires t.displayMode == MODE_ONLY_ONE && |t.future| == 1
    requires b.uuid !in Stored(t.screens, IdOf([a, b]).v1).onlyOneMap
    ensures Suitable(Saved(t, [a, b], writeOk).screens, MODE_ONLY_ONE, [b, a]) == [] != t.future
    ensures a.uuid != "" ==> Suitable(Saved(t, [a, b], writeOk).screens, MODE_ONLY_ONE, [a, b]) == t.future
  {
    hide IdOf, Saved;
    assert multiset([a, b]) == multiset([b, a]);
    IdIgnoresOrder([a, b], [b, a]);
    SuitableIsAtPlace(Saved(t, [a, b], writeOk).screens, MODE_ONLY_ONE, [b, a]);
    SavedAtPlace(t, [a, b], writeOk, PlaceOf(MODE_ONLY_ONE, [b, a]));
    SavedIsFoundIff(t, [a, b], writeOk, [a, b]);
  }
}
