/** What the quality controller guarantees across every sequence of events: the UI list stays
    sorted without repeated heights, at most one engine is alive and it is the one the view
    points at, each engine is disposed at most once and has exactly one discovery listener,
    and unmounting releases everything. */
module QualityProperties {
  import opened Wrappers
  import Text
  import opened QualityLevels

  predicate Inv(v: View) {
    && StrictlyDescending(v.levels)
    && (forall i :: 0 <= i < |v.engines| ==> v.engines[i].disposals <= 1)
    && (forall i :: 0 <= i < |v.engines| && !v.engines[i].Disposed() ==> v.playerRef == Some(i))
    && (v.playerRef.Some? ==>
          && v.playerRef.value < |v.engines|
          && !v.engines[v.playerRef.value].Disposed()
          && SubscribedOnce(v.engines[v.playerRef.value]))
    && (v.captured.Some? ==> v.captured.value < |v.engines|)
    && (v.mounted ==> v.captured == v.playerRef && (v.mountNode ==> v.playerRef.Some?))
    && (!v.mounted ==> v.playerRef.None?)
    && (!v.mountNode ==> v.engines == [])
  }

  lemma InitInv(mountNode: bool)
    ensures Inv(Init(mountNode))
  {
  }

  lemma StepInv(v: View, ev: Event)
    requires Inv(v)
    ensures Inv(Step(v, ev))
  {
    match ev
    case Mount(src) => MountInv(v, src);
    case ChangeSrc(src) => ChangeSrcInv(v, src);
    case EngineReady => ReadyInv(v);
    case QualityLevelAdded(h) => LevelAddedInv(v, h);
    case SelectQuality(value) => SelectInv(v, value);
    case Unmount => UnmountInv(v);
  }

  lemma MountInv(v: View, src: string)
    requires Inv(v)
    ensures Inv(Step(v, Mount(src)))
  {
  }

  lemma ChangeSrcInv(v: View, src: string)
    requires Inv(v)
    ensures Inv(Step(v, ChangeSrc(src)))
  {
    if v.mounted && src != v.src && v.mountNode {
      CountSubscribeAppendReset(v.engines[v.playerRef.value].pending);
    }
  }

  lemma ReadyInv(v: View)
    requires Inv(v)
    ensures Inv(Step(v, EngineReady))
  {
    if v.playerRef.Some? {
      var e := v.engines[v.playerRef.value];
      if e.pending != [] {
        assert CountSubscribe(e.pending)
            == (if e.pending[0] == SubscribeDiscovery then 1 else 0) + CountSubscribe(e.pending[1..]);
      }
    }
  }

  lemma LevelAddedInv(v: View, h: nat)
    requires Inv(v)
    ensures Inv(Step(v, QualityLevelAdded(h)))
  {
    if v.playerRef.Some? {
      var id := v.playerRef.value;
      var e := v.engines[id];
      var u := v.(engines := v.engines[id := e.(levels := e.levels + [EngineLevel(h, true)])]);
      assert Inv(u);
      if e.subscriptions > 0 {
        var l := AddLevel(v.levels, h);
        AddLevelKeepsStrictOrder(v.levels, h);
        assert Inv(u.(levels := l));
      }
    }
  }

  lemma SelectInv(v: View, value: string)
    requires Inv(v)
    ensures Inv(Step(v, SelectQuality(value)))
  {
  }

  lemma UnmountInv(v: View)
    requires Inv(v)
    ensures Inv(Step(v, Unmount))
  {
  }

  /** Every state reachable from a fresh view satisfies the invariant. */
  lemma {:induction false} RunInv(v: View, evs: seq<Event>)
    requires Inv(v)
    ensures Inv(Run(v, evs))
    decreases |evs|
  {
    if evs != [] {
      StepInv(v, evs[0]);
      RunInv(Step(v, evs[0]), evs[1..]);
    }
  }

  /** The engine is never shared: at most one engine is alive. */
  lemma AtMostOneLiveEngine(v: View, i: nat, j: nat)
    requires Inv(v)
    requires i < |v.engines| && j < |v.engines|
    requires !v.engines[i].Disposed() && !v.engines[j].Disposed()
    ensures i == j
  {
  }

  /** Unmounting releases every engine the view ever created, each exactly once. */
  lemma UnmountReleasesAll(v: View)
    requires Inv(v)
    ensures var w := Step(v, Unmount);
            && |w.engines| == |v.engines|
            && w.playerRef.None?
            && forall i :: 0 <= i < |w.engines| ==> w.engines[i].disposals == 1
  {
  }

  /** Running the cleanup again is a no-op, whatever the state: a disposed player is not
      disposed twice. */
  lemma CleanupIdempotent(v: View)
    ensures Step(Step(v, Unmount), Unmount) == Step(v, Unmount)
  {
  }

  /** A source change with a live player reuses it: no engine is created, no listener is added,
      the engine gets the new source, and the reset of the selector is queued on its `ready`
      hook rather than applied at once. */
  lemma ChangeSrcReusesEngine(v: View, src: string)
    requires Inv(v) && v.mounted && v.mountNode && src != v.src
    ensures var w := Step(v, ChangeSrc(src));
            var id := v.playerRef.value;
            && |w.engines| == |v.engines|
            && w.playerRef == v.playerRef
            && w.engines[id].src == src
            && w.engines[id].subscriptions == v.engines[id].subscriptions
            && CountSubscribe(w.engines[id].pending) == CountSubscribe(v.engines[id].pending)
            && w.engines[id].pending == v.engines[id].pending + [ResetSelection]
            && w.levels == v.levels && w.currentLevel == v.currentLevel
  {
    CountSubscribeAppendReset(v.engines[v.playerRef.value].pending);
  }

  /** Once an idle engine has taken a new source and signalled readiness, the list is empty
      and the selection is "Auto", whatever was listed for the previous source. */
  lemma ResetOnReadyAfterChange(v: View, src: string)
    requires Inv(v) && v.mounted && v.mountNode && src != v.src
    requires v.engines[v.playerRef.value].pending == []
    ensures var w := Step(Step(v, ChangeSrc(src)), EngineReady);
            && w.levels == [] && w.currentLevel == AUTO
            && |w.engines| == |v.engines| && w.playerRef == v.playerRef
            && !SelectorVisible(w)
  {
    var id := v.playerRef.value;
    var u := Step(v, ChangeSrc(src));
    assert u.engines[id].pending == [ResetSelection];
  }

  /** A rendition announced after the source change but before the engine's readiness is
      wiped by the queued reset and not listed again. */
  lemma DiscoveryBeforeResetIsLost(v: View, src: string, h: nat)
    requires Inv(v) && v.mounted && v.mountNode && src != v.src
    requires v.engines[v.playerRef.value].pending == []
    ensures var w := Step(Step(Step(v, ChangeSrc(src)), QualityLevelAdded(h)), EngineReady);
            && |w.engines| == |v.engines|
            && w.levels == [] && w.engines[v.playerRef.value].levels == [EngineLevel(h, true)]
  {
    var id := v.playerRef.value;
    var u1 := Step(v, ChangeSrc(src));
    assert u1.engines[id].pending == [ResetSelection];
    var u2 := Step(u1, QualityLevelAdded(h));
    assert u2.engines[id].pending == [ResetSelection];
    assert u2.engines[id].levels == [EngineLevel(h, true)];
  }

  /** After unmounting, readiness and discovery events change nothing. */
  lemma StaleEventsDropped(v: View, h: nat)
    requires Inv(v) && !v.mounted
    ensures Step(v, EngineReady) == v
    ensures Step(v, QualityLevelAdded(h)) == v
  {
  }

  /** Mounting again after an unmount creates a fresh engine, the disposed one is not reused,
      and the new instance lists nothing and selects "Auto", so no selector shows. */
  lemma RemountCreatesFreshEngine(v: View, src: string)
    requires Inv(v) && !v.mounted && v.mountNode
    ensures var w := Step(v, Mount(src));
            && |w.engines| == |v.engines| + 1
            && w.playerRef == Some(|v.engines|) && w.captured == w.playerRef
            && w.engines[|v.engines|] == NewEngine(src)
            && w.engines[..|v.engines|] == v.engines
            && w.levels == [] && w.currentLevel == AUTO && !SelectorVisible(w)
  {
  }

  /** Without a container element the effects create nothing and touch no engine. */
  lemma NoMountNodeNoEngine(v: View, ev: Event)
    requires Inv(v) && !v.mountNode
    ensures Step(v, ev).engines == []
    ensures Step(v, ev).playerRef.None?
  {
  }

  /** A height already listed leaves the list as it was; a new height is listed once the
      engine's listener is registered. */
  lemma LevelAddedUpdatesList(v: View, h: nat)
    requires Inv(v) && v.playerRef.Some?
    ensures var w := Step(v, QualityLevelAdded(h));
            && (h in v.levels ==> w.levels == v.levels)
            && (v.engines[v.playerRef.value].subscriptions > 0 ==>
                  (forall x :: x in w.levels <==> x in v.levels || x == h) && SelectorVisible(w))
            && (v.engines[v.playerRef.value].subscriptions == 0 ==> w.levels == v.levels)
  {
    AddLevelKeepsStrictOrder(v.levels, h);
  }

  /** Selecting "Auto" enables every rendition of the engine; nothing but the engine's flags
      and the recorded choice changes. */
  lemma SelectAutoEnablesAll(v: View)
    requires Inv(v) && v.playerRef.Some?
    ensures var w := Step(v, SelectQuality(AUTO));
            var id := v.playerRef.value;
            && w.currentLevel == AUTO
            && w.levels == v.levels && w.playerRef == v.playerRef
            && |w.engines| == |v.engines|
            && (forall j :: 0 <= j < |v.engines| && j != id ==> w.engines[j] == v.engines[j])
            && |w.engines[id].levels| == |v.engines[id].levels|
            && (forall i :: 0 <= i < |w.engines[id].levels| ==>
                  w.engines[id].levels[i].height == v.engines[id].levels[i].height
                  && w.engines[id].levels[i].enabled)
            && w.engines[id] == v.engines[id].(levels := w.engines[id].levels)
  {
    var id := v.playerRef.value;
    assert Step(v, SelectQuality(AUTO))
        == v.(currentLevel := AUTO, engines := v.engines[id := v.engines[id].(levels := ApplySelection(v.engines[id].levels, AUTO))]);
  }

  /** Selecting a height enables exactly the renditions of that height and disables the rest;
      nothing but the engine's flags and the recorded choice changes. */
  lemma SelectHeight(v: View, h: nat)
    requires Inv(v) && v.playerRef.Some?
    ensures var w := Step(v, SelectQuality(Text.NatToString(h)));
            var id := v.playerRef.value;
            && w.currentLevel == Text.NatToString(h)
            && w.levels == v.levels && w.playerRef == v.playerRef
            && |w.engines| == |v.engines|
            && (forall j :: 0 <= j < |v.engines| && j != id ==> w.engines[j] == v.engines[j])
            && w.engines[id] == v.engines[id].(levels := w.engines[id].levels)
            && |w.engines[id].levels| == |v.engines[id].levels|
            && (forall i :: 0 <= i < |w.engines[id].levels| ==>
                  w.engines[id].levels[i].height == v.engines[id].levels[i].height
                  && (w.engines[id].levels[i].enabled <==> v.engines[id].levels[i].height == h))
            && CountEnabled(w.engines[id].levels) == CountHeight(v.engines[id].levels, h)
  {
    var id := v.playerRef.value;
    var ls := v.engines[id].levels;
    var value := Text.NatToString(h);
    assert Step(v, SelectQuality(value))
        == v.(currentLevel := value, engines := v.engines[id := v.engines[id].(levels := ApplySelection(ls, value))]);
    SelectHeightEnablesMatching(ls, h);
    SelectHeightCount(ls, h);
  }

  /** Without a player the choice is still recorded and no engine changes. */
  lemma SelectWithoutPlayer(v: View, value: string)
    requires v.playerRef.None?
    ensures Step(v, SelectQuality(value)) == v.(currentLevel := value)
  {
  }

  /** A first mount creates one engine, which listens for renditions once ready. */
  lemma MountThenReady(src: string)
    ensures var v := Step(Step(Init(true), Mount(src)), EngineReady);
            Listening(v) && v.levels == [] && v.engines[0].levels == [] && v.engines[0].src == src
  {
  }

  /** On a listening view with nothing listed, announcements of 720, 1080, 720 and 360 list
      [1080, 720, 360], while the engine keeps all four renditions in announcement order. */
  lemma DiscoveryScenario(v: View)
    requires Listening(v) && v.levels == [] && v.engines[0].levels == []
    ensures var w := Step(Step(Step(Step(v, QualityLevelAdded(720)), QualityLevelAdded(1080)),
                               QualityLevelAdded(720)), QualityLevelAdded(360));
            && Listening(w)
            && w.levels == [1080, 720, 360]
            && w.engines[0].levels == [EngineLevel(720, true), EngineLevel(1080, true),
                                       EngineLevel(720, true), EngineLevel(360, true)]
  {
    var v2 := Step(v, QualityLevelAdded(720));
    DiscoverFirst(v);
    var v3 := Step(v2, QualityLevelAdded(1080));
    DiscoverHigher(v2);
    var v4 := Step(v3, QualityLevelAdded(720));
    DiscoverRepeat(v3);
    DiscoverLower(v4);
  }

  lemma DiscoverFirst(v: View)
    requires Listening(v) && v.levels == [] && v.engines[0].levels == []
    ensures var w := Step(v, QualityLevelAdded(720));
            Listening(w) && w.levels == [720] && w.engines[0].levels == [EngineLevel(720, true)]
  {
    ListeningDiscovery(v, 720);
    AddFirst(720);
  }

  lemma DiscoverHigher(v: View)
    requires Listening(v) && v.levels == [720] && v.engines[0].levels == [EngineLevel(720, true)]
    ensures var w := Step(v, QualityLevelAdded(1080));
            && Listening(w) && w.levels == [1080, 720]
            && w.engines[0].levels == [EngineLevel(720, true), EngineLevel(1080, true)]
  {
    ListeningDiscovery(v, 1080);
    AddAbove(720, 1080);
  }

  lemma DiscoverRepeat(v: View)
    requires Listening(v) && v.levels == [1080, 720]
    requires v.engines[0].levels == [EngineLevel(720, true), EngineLevel(1080, true)]
    ensures var w := Step(v, QualityLevelAdded(720));
            && Listening(w) && w.levels == [1080, 720]
            && w.engines[0].levels == [EngineLevel(720, true), EngineLevel(1080, true), EngineLevel(720, true)]
  {
    ListeningDiscovery(v, 720);
  }

  lemma DiscoverLower(v: View)
    requires Listening(v) && v.levels == [1080, 720]
    requires v.engines[0].levels == [EngineLevel(720, true), EngineLevel(1080, true), EngineLevel(720, true)]
    ensures var w := Step(v, QualityLevelAdded(360));
            && Listening(w) && w.levels == [1080, 720, 360]
            && w.engines[0].levels == [EngineLevel(720, true), EngineLevel(1080, true),
                                       EngineLevel(720, true), EngineLevel(360, true)]
  {
    ListeningDiscovery(v, 360);
    AddBelow(1080, 720, 360);
  }

  /** The single engine of the view is alive and listening. */
  predicate Listening(v: View) {
    && v.playerRef == Some(0) && |v.engines| == 1
    && !v.engines[0].Disposed() && v.engines[0].subscriptions == 1
  }

  lemma ListeningDiscovery(v: View, h: nat)
    requires Listening(v)
    ensures var w := Step(v, QualityLevelAdded(h));
            && Listening(w)
            && w.engines[0].levels == v.engines[0].levels + [EngineLevel(h, true)]
            && w.levels == AddLevel(v.levels, h)
  {
  }

  // ---------------------------------------------------------------------------------------
  // The selection pattern on the live engine
  // ---------------------------------------------------------------------------------------

  /** The engine's renditions follow the recorded choice: under "Auto" every rendition is
      enabled; under a height, exactly the renditions spelled that way are. */
  predicate SelectionApplied(v: View) {
    v.playerRef.Some? && v.playerRef.value < |v.engines| ==>
      var ls := v.engines[v.playerRef.value].levels;
      forall i :: 0 <= i < |ls| ==>
        (ls[i].enabled <==> v.currentLevel == AUTO || Text.NatToString(ls[i].height) == v.currentLevel)
  }

  /** The engine announces a rendition of another height while a height is pinned; renditions
      arrive enabled. */
  predicate PinnedThenOtherHeight(v: View, ev: Event) {
    ev.QualityLevelAdded? && v.currentLevel != AUTO && Text.NatToString(ev.height) != v.currentLevel
  }

  /** The reset queued by a source change runs while some rendition is disabled: it records
      "Auto" but enables nothing. */
  predicate ResetOverPinned(v: View, ev: Event) {
    && ev.EngineReady?
    && v.playerRef.Some? && v.playerRef.value < |v.engines|
    && var e := v.engines[v.playerRef.value];
       && e.pending != [] && e.pending[0] == ResetSelection
       && exists i :: 0 <= i < |e.levels| && !e.levels[i].enabled
  }

  /** Every event keeps the engine's renditions in step with the recorded choice, except the
      two named above. A selection re-establishes it whatever came before. */
  lemma SelectionAppliedStep(v: View, ev: Event)
    requires Inv(v) && (SelectionApplied(v) || ev.SelectQuality?)
    ensures SelectionApplied(Step(v, ev)) || PinnedThenOtherHeight(v, ev) || ResetOverPinned(v, ev)
  {
    match ev
    case Mount(src) => MountApplied(v, src);
    case ChangeSrc(src) => ChangeSrcApplied(v, src);
    case EngineReady => ReadyApplied(v);
    case QualityLevelAdded(h) => LevelAddedApplied(v, h);
    case SelectQuality(value) => SelectApplied(v, value);
    case Unmount => UnmountApplied(v);
  }

  /** Neither race occurs anywhere along the run. */
  predicate RaceFree(v: View, evs: seq<Event>)
    decreases |evs|
  {
    evs != [] ==>
      && !PinnedThenOtherHeight(v, evs[0]) && !ResetOverPinned(v, evs[0])
      && RaceFree(Step(v, evs[0]), evs[1..])
  }

  /** Over any run free of the two races, the renditions stay in step with the choice. */
  lemma {:induction false} RunSelectionApplied(v: View, evs: seq<Event>)
    requires Inv(v) && SelectionApplied(v) && RaceFree(v, evs)
    ensures SelectionApplied(Run(v, evs))
    decreases |evs|
  {
    if evs != [] {
      SelectionAppliedStep(v, evs[0]);
      StepInv(v, evs[0]);
      RunSelectionApplied(Step(v, evs[0]), evs[1..]);
    }
  }

  lemma MountApplied(v: View, src: string)
    requires Inv(v) && SelectionApplied(v)
    ensures SelectionApplied(Step(v, Mount(src)))
  {
    if !v.mounted && v.mountNode {
      assert Step(v, Mount(src)).engines[|v.engines|] == NewEngine(src);
    }
  }

  lemma ChangeSrcApplied(v: View, src: string)
    requires SelectionApplied(v)
    ensures SelectionApplied(Step(v, ChangeSrc(src)))
  {
    if v.mounted && src != v.src && v.mountNode && v.playerRef.None? {
      assert Step(v, ChangeSrc(src)).engines[|v.engines|] == NewEngine(src);
    }
  }

  lemma ReadyApplied(v: View)
    requires SelectionApplied(v)
    ensures SelectionApplied(Step(v, EngineReady)) || ResetOverPinned(v, EngineReady)
  {
  }

  lemma LevelAddedApplied(v: View, h: nat)
    requires SelectionApplied(v)
    ensures SelectionApplied(Step(v, QualityLevelAdded(h))) || PinnedThenOtherHeight(v, QualityLevelAdded(h))
  {
    if v.playerRef.Some? && v.playerRef.value < |v.engines| && !v.engines[v.playerRef.value].Disposed() {
      var id := v.playerRef.value;
      var prior := v.engines[id].levels;
      var ls := prior + [EngineLevel(h, true)];
      var w := Step(v, QualityLevelAdded(h));
      assert w.playerRef == v.playerRef && w.currentLevel == v.currentLevel;
      assert w.engines[id].levels == ls;
      assert forall i :: 0 <= i < |prior| ==> ls[i] == prior[i];
    }
  }

  lemma SelectApplied(v: View, value: string)
    ensures SelectionApplied(Step(v, SelectQuality(value)))
  {
    if value != AUTO && v.playerRef.Some? && v.playerRef.value < |v.engines| {
      assert value != AUTO;
    }
  }

  lemma UnmountApplied(v: View)
    requires SelectionApplied(v)
    ensures SelectionApplied(Step(v, Unmount))
  {
  }

  /** The race of the queued reset: after a source change, the new renditions are announced and
      one height is pinned before the engine signals readiness; the reset then shows "Auto"
      while the other rendition stays disabled. */
  lemma AutoShownOverPinnedRendition(v: View, src: string, a: nat, b: nat)
    requires Inv(v) && v.mounted && v.mountNode && src != v.src && a != b
    requires v.engines[v.playerRef.value].pending == []
    ensures var u1 := Step(v, ChangeSrc(src));
            var u2 := Step(Step(u1, QualityLevelAdded(a)), QualityLevelAdded(b));
            var w := Step(Step(u2, SelectQuality(Text.NatToString(a))), EngineReady);
            && w.currentLevel == AUTO
            && v.playerRef.value < |w.engines|
            && w.engines[v.playerRef.value].levels == [EngineLevel(a, true), EngineLevel(b, false)]
            && !SelectionApplied(w)
  {
    var id := v.playerRef.value;
    var u1 := Step(v, ChangeSrc(src));
    RaceChange(v, src);
    var u2 := Step(u1, QualityLevelAdded(a));
    RaceAnnounce(u1, id, a);
    assert u2.engines[id].levels == [EngineLevel(a, true)];
    var u3 := Step(u2, QualityLevelAdded(b));
    RaceAnnounce(u2, id, b);
    assert u3.engines[id].levels == [EngineLevel(a, true), EngineLevel(b, true)];
    var u4 := Step(u3, SelectQuality(Text.NatToString(a)));
    RacePin(u3, id, a, b);
    var w := Step(u4, EngineReady);
    RaceReset(u4, id);
    assert w.engines[id].levels[1] == EngineLevel(b, false);
  }

  /** The view's player is `id`, alive. */
  predicate LiveAt(v: View, id: nat) {
    v.playerRef == Some(id) && id < |v.engines| && !v.engines[id].Disposed()
  }

  lemma RaceChange(v: View, src: string)
    requires Inv(v) && v.mounted && v.mountNode && src != v.src
    requires v.engines[v.playerRef.value].pending == []
    ensures var w := Step(v, ChangeSrc(src));
            && LiveAt(w, v.playerRef.value)
            && w.engines[v.playerRef.value].pending == [ResetSelection]
            && w.engines[v.playerRef.value].levels == []
  {
  }

  lemma RaceAnnounce(v: View, id: nat, h: nat)
    requires LiveAt(v, id)
    ensures var w := Step(v, QualityLevelAdded(h));
            && LiveAt(w, id)
            && w.engines[id].pending == v.engines[id].pending
            && w.engines[id].levels == v.engines[id].levels + [EngineLevel(h, true)]
  {
  }

  lemma RacePin(v: View, id: nat, a: nat, b: nat)
    requires LiveAt(v, id) && a != b
    requires v.engines[id].levels == [EngineLevel(a, true), EngineLevel(b, true)]
    ensures var w := Step(v, SelectQuality(Text.NatToString(a)));
            && LiveAt(w, id)
            && w.engines[id].pending == v.engines[id].pending
            && w.engines[id].levels == [EngineLevel(a, true), EngineLevel(b, false)]
  {
    SelectHeightEnablesMatching(v.engines[id].levels, a);
  }

  lemma RaceReset(v: View, id: nat)
    requires LiveAt(v, id) && v.engines[id].pending == [ResetSelection]
    ensures var w := Step(v, EngineReady);
            && w.currentLevel == AUTO
            && w.playerRef == Some(id) && id < |w.engines|
            && w.engines[id].levels == v.engines[id].levels
  {
  }
}
