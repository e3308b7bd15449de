/** The video player's quality controller: one media engine per mounted view, reused across
    source changes; the list of renditions the engine announces, deduplicated by height and
    sorted by descending height; and the selector that pins playback to one height or hands
    the choice back to the engine ("Auto").

    The media engine is a fake: a record of its source, how often it was disposed, its own
    list of renditions, its discovery listeners and the callbacks queued on its `ready` hook.
    Asynchronous engine activity (readiness, rendition discovery) arrives as explicit events. */
module QualityLevels {
  import opened Wrappers
  import Text

  /** The selector value that enables every rendition. */
  const AUTO := "Auto"

  // ---------------------------------------------------------------------------------------
  // The UI list of heights
  // ---------------------------------------------------------------------------------------

  predicate Descending(s: seq<nat>) {
    forall i, j :: 0 <= i < j < |s| ==> s[i] >= s[j]
  }

  /** Descending with no height listed twice. */
  predicate StrictlyDescending(s: seq<nat>) {
    forall i, j :: 0 <= i < j < |s| ==> s[i] > s[j]
  }

  predicate Distinct(s: seq<nat>) {
    forall i, j :: 0 <= i < j < |s| ==> s[i] != s[j]
  }

  function InsertDescending(x: nat, s: seq<nat>): (r: seq<nat>)
    requires Descending(s)
    ensures Descending(r)
    ensures multiset(r) == multiset(s) + multiset{x}
    ensures StrictlyDescending(s) && x !in s ==> StrictlyDescending(r)
  {
    if s == [] || x >= s[0] then
      Prepend(x, s);
      [x] + s
    else
      var tail := InsertDescending(x, s[1..]);
      InsertBelowHead(x, s, tail);
      Prepend(s[0], tail);
      [s[0]] + tail
  }

  /** A height at least every listed one may go in front; strictly above them, the strict
      order survives too. */
  lemma Prepend(y: nat, t: seq<nat>)
    requires Descending(t) && forall k :: 0 <= k < |t| ==> y >= t[k]
    ensures Descending([y] + t)
    ensures StrictlyDescending(t) && (forall k :: 0 <= k < |t| ==> y > t[k]) ==> StrictlyDescending([y] + t)
  {
    var r := [y] + t;
    assert forall k :: 1 <= k < |r| ==> r[k] == t[k - 1];
  }

  lemma InsertBelowHead(x: nat, s: seq<nat>, tail: seq<nat>)
    requires s != [] && x < s[0] && Descending(s)
    requires multiset(tail) == multiset(s[1..]) + multiset{x}
    ensures forall k :: 0 <= k < |tail| ==> s[0] >= tail[k]
    ensures StrictlyDescending(s) ==> forall k :: 0 <= k < |tail| ==> s[0] > tail[k]
    ensures multiset([s[0]] + tail) == multiset(s) + multiset{x}
  {
    assert s == [s[0]] + s[1..];
    forall k | 0 <= k < |tail| ensures tail[k] == x || tail[k] in s[1..] {
      assert tail[k] in multiset(tail);
    }
  }

  /** The list sorted by a comparator that puts greater heights first. */
  function SortDescending(s: seq<nat>): (r: seq<nat>)
    ensures Descending(r)
    ensures multiset(r) == multiset(s)
    ensures Distinct(s) ==> StrictlyDescending(r)
  {
    if s == [] then []
    else
      var sortedTail := SortDescending(s[1..]);
      SortStep(s, sortedTail);
      InsertDescending(s[0], sortedTail)
  }

  lemma SortStep(s: seq<nat>, sortedTail: seq<nat>)
    requires s != [] && multiset(sortedTail) == multiset(s[1..])
    ensures multiset(sortedTail) + multiset{s[0]} == multiset(s)
    ensures Distinct(s) ==> Distinct(s[1..]) && s[0] !in sortedTail
  {
    assert s == [s[0]] + s[1..];
    if Distinct(s) {
      assert s[0] !in s[1..];
      assert s[0] !in multiset(sortedTail);
    }
  }

  /** A descending arrangement of a collection of heights is unique, so whatever algorithm the
      browser's sort uses, the resulting list is the one modelled here. */
  lemma {:induction false} DescendingPermutationUnique(a: seq<nat>, b: seq<nat>)
    requires Descending(a) && Descending(b)
    requires multiset(a) == multiset(b)
    ensures a == b
    decreases |a|
  {
    if a == [] {
      assert |multiset(b)| == 0;
    } else {
      assert |b| == |multiset(b)| == |multiset(a)| == |a|;
      assert a[0] in multiset(b) && b[0] in multiset(a);
      assert a[0] == b[0];
      assert a == [a[0]] + a[1..] && b == [b[0]] + b[1..];
      assert multiset(a) == multiset{a[0]} + multiset(a[1..]);
      assert multiset(b) == multiset{b[0]} + multiset(b[1..]);
      assert forall y :: multiset(a[1..])[y] == multiset(b[1..])[y] by {
        forall y ensures multiset(a[1..])[y] == multiset(b[1..])[y] {
          assert multiset(a)[y] == multiset{a[0]}[y] + multiset(a[1..])[y];
          assert multiset(b)[y] == multiset{b[0]}[y] + multiset(b[1..])[y];
        }
      }
      assert multiset(a[1..]) == multiset(b[1..]);
      DescendingPermutationUnique(a[1..], b[1..]);
    }
  }

  /** The `addqualitylevel` state updater: a height already listed leaves the list as it is;
      a new height is appended and the list re-sorted by descending height. */
  function AddLevel(levels: seq<nat>, h: nat): (r: seq<nat>)
    ensures h in levels ==> r == levels
    ensures h !in levels ==> Descending(r) && multiset(r) == multiset(levels) + multiset{h}
  {
    if h in levels then levels else SortDescending(levels + [h])
  }

  /** On a list already sorted, the re-sort puts the new height at its rank and moves nothing
      else. */
  lemma AddLevelInsertsInPlace(levels: seq<nat>, h: nat)
    requires Descending(levels) && h !in levels
    ensures AddLevel(levels, h) == InsertDescending(h, levels)
  {
    DescendingPermutationUnique(AddLevel(levels, h), InsertDescending(h, levels));
  }

  /** Every discovery keeps the list strictly descending — at most one entry per height — and
      the listed heights are the old ones plus the discovered one. */
  lemma AddLevelKeepsStrictOrder(levels: seq<nat>, h: nat)
    requires StrictlyDescending(levels)
    ensures StrictlyDescending(AddLevel(levels, h))
    ensures forall x :: x in AddLevel(levels, h) <==> x in levels || x == h
  {
    if h !in levels {
      AddLevelInsertsInPlace(levels, h);
      var r := AddLevel(levels, h);
      forall x ensures x in r <==> x in levels || x == h {
        assert x in r <==> x in multiset(r);
      }
    }
  }

  /** Discovering 720, 1080, 720, 360 from an empty list yields [1080, 720, 360]. */
  lemma DiscoveryExample()
    ensures AddLevel(AddLevel(AddLevel(AddLevel([], 720), 1080), 720), 360) == [1080, 720, 360]
  {
    AddFirst(720);
    AddAbove(720, 1080);
    AddBelow(1080, 720, 360);
  }

  /** The first discovery is listed alone. */
  lemma AddFirst(h: nat)
    ensures AddLevel([], h) == [h]
  {
    AddLevelInsertsInPlace([], h);
  }

  /** A height above everything listed goes to the front. */
  lemma AddAbove(a: nat, h: nat)
    requires h > a
    ensures AddLevel([a], h) == [h, a]
  {
    AddLevelInsertsInPlace([a], h);
  }

  /** A height below everything listed goes to the back. */
  lemma AddBelow(a: nat, b: nat, h: nat)
    requires a > b > h
    ensures AddLevel([a, b], h) == [a, b, h]
  {
    AddLevelInsertsInPlace([a, b], h);
    InsertAtEnd(a, b, h);
  }

  lemma InsertAtEnd(a: nat, b: nat, h: nat)
    requires a > b > h
    ensures InsertDescending(h, [a, b]) == [a, b, h]
  {
    assert [a, b][1..] == [b] && [b][1..] == [];
    assert InsertDescending(h, [b]) == [b, h];
    assert [a] + [b, h] == [a, b, h];
  }

  // ---------------------------------------------------------------------------------------
  // The engine and its renditions
  // ---------------------------------------------------------------------------------------

  /** One rendition as the engine's own quality-level list holds it. */
  datatype EngineLevel = EngineLevel(height: nat, enabled: bool)

  /** Work the view queued on the engine's `ready` hook. */
  datatype ReadyCallback =
    | SubscribeDiscovery  // the first-creation callback: listen for "addqualitylevel"
    | ResetSelection      // the source-change callback: empty the list, select "Auto"

  datatype Engine = Engine(
    src: string,
    disposals: nat,               // how many times `dispose()` ran on this engine
    levels: seq<EngineLevel>,     // in announcement order; heights may repeat
    subscriptions: nat,           // registered "addqualitylevel" listeners
    pending: seq<ReadyCallback>)  // queued on `ready`, run in order
  {
    predicate Disposed() {
      disposals > 0
    }
  }

  function CountSubscribe(pending: seq<ReadyCallback>): nat {
    if pending == [] then 0
    else (if pending[0] == SubscribeDiscovery then 1 else 0) + CountSubscribe(pending[1..])
  }

  lemma {:induction false} CountSubscribeAppendReset(pending: seq<ReadyCallback>)
    ensures CountSubscribe(pending + [ResetSelection]) == CountSubscribe(pending)
    decreases |pending|
  {
    if pending == [] {
      assert [] + [ResetSelection] == [ResetSelection];
    } else {
      assert (pending + [ResetSelection])[1..] == pending[1..] + [ResetSelection];
      CountSubscribeAppendReset(pending[1..]);
    }
  }

  /** The engine has exactly one discovery listener, registered or still queued. */
  predicate SubscribedOnce(e: Engine) {
    e.subscriptions + CountSubscribe(e.pending) == 1
  }

  /** The loop of `handleQualityChange` over the engine's own list: "Auto" enables every
      rendition, any other value enables exactly the renditions whose height's decimal spelling
      equals it. */
  function ApplySelection(ls: seq<EngineLevel>, value: string): (r: seq<EngineLevel>)
    ensures |r| == |ls|
    ensures forall i :: 0 <= i < |r| ==> r[i].height == ls[i].height
    ensures value == AUTO ==> forall i :: 0 <= i < |r| ==> r[i].enabled
    ensures value != AUTO ==>
      forall i :: 0 <= i < |r| ==> (r[i].enabled <==> Text.NatToString(ls[i].height) == value)
  {
    if ls == [] then []
    else
      var first := if value == AUTO then ls[0].(enabled := true)
                   else ls[0].(enabled := Text.NatToString(ls[0].height) == value);
      [first] + ApplySelection(ls[1..], value)
  }

  function CountEnabled(ls: seq<EngineLevel>): nat {
    if ls == [] then 0 else (if ls[0].enabled then 1 else 0) + CountEnabled(ls[1..])
  }

  function CountHeight(ls: seq<EngineLevel>, h: nat): nat {
    if ls == [] then 0 else (if ls[0].height == h then 1 else 0) + CountHeight(ls[1..], h)
  }

  /** Selecting a height spelled as the selector spells it enables exactly the renditions of
      that height. */
  lemma SelectHeightEnablesMatching(ls: seq<EngineLevel>, h: nat)
    ensures forall i :: 0 <= i < |ls| ==>
      (ApplySelection(ls, Text.NatToString(h))[i].enabled <==> ls[i].height == h)
  {
    var r := ApplySelection(ls, Text.NatToString(h));
    assert Text.NatToString(h) != AUTO;
    forall i | 0 <= i < |ls| ensures r[i].enabled <==> ls[i].height == h {
      if Text.NatToString(ls[i].height) == Text.NatToString(h) {
        Text.NatToStringInjective(ls[i].height, h);
      }
    }
  }

  /** So the number of renditions left enabled is the number of renditions of that height: one
      when the height is listed once. */
  lemma {:induction false} SelectHeightCount(ls: seq<EngineLevel>, h: nat)
    ensures CountEnabled(ApplySelection(ls, Text.NatToString(h))) == CountHeight(ls, h)
    decreases |ls|
  {
    if ls != [] {
      var r := ApplySelection(ls, Text.NatToString(h));
      SelectHeightEnablesMatching(ls, h);
      assert r[1..] == ApplySelection(ls[1..], Text.NatToString(h));
      SelectHeightCount(ls[1..], h);
    }
  }

  /** A value that spells no rendition's height — a vanished height, or text such as "720p" or
      "0720" — leaves every rendition disabled. */
  lemma SelectUnmatchedDisablesAll(ls: seq<EngineLevel>, value: string)
    requires value != AUTO
    requires forall i :: 0 <= i < |ls| ==> Text.NatToString(ls[i].height) != value
    ensures forall i :: 0 <= i < |ls| ==> !ApplySelection(ls, value)[i].enabled
  {
  }

  /** The engine's list is not deduplicated: two renditions of one height are both enabled by
      a manual selection of that height. */
  lemma DuplicateHeightsBothEnabled()
    ensures var r := ApplySelection([EngineLevel(720, false), EngineLevel(720, false)], "720");
            r[0].enabled && r[1].enabled
  {
    assert Text.NatToString(720) == "720" by {
      assert Text.NatToString(72) == "72" by {
        assert Text.NatToString(7) == "7";
      }
    }
  }

  // ---------------------------------------------------------------------------------------
  // The view
  // ---------------------------------------------------------------------------------------

  datatype View = View(
    mounted: bool,
    mountNode: bool,          // whether the container element exists when effects run
    src: string,              // the `src` prop of the last render
    engines: seq<Engine>,     // every engine this view created, in creation order
    playerRef: Option<nat>,   // `playerRef.current`
    captured: Option<nat>,    // the player the cleanup closure captured at mount
    levels: seq<nat>,         // UI state `levels` (heights)
    currentLevel: string)     // UI state `currentLevel`

  function Init(mountNode: bool): View {
    View(false, mountNode, "", [], None, None, [], AUTO)
  }

  datatype Event =
    | Mount(src: string)
    | ChangeSrc(src: string)
    | EngineReady
    | QualityLevelAdded(height: nat)
    | SelectQuality(value: string)
    | Unmount

  function NewEngine(src: string): Engine {
    Engine(src, 0, [], 0, [SubscribeDiscovery])
  }

  /** The effect on `[src]`: nothing without a container; otherwise create an engine when
      there is none (listening for discovery once ready), or hand the existing one the new
      source and queue the reset of the selector on its `ready` hook. The fake engine drops
      the renditions of the replaced source. */
  function SrcEffect(v: View): View {
    if !v.mountNode then v
    else match v.playerRef
      case None =>
        v.(engines := v.engines + [NewEngine(v.src)], playerRef := Some(|v.engines|))
      case Some(id) =>
        if id < |v.engines| then
          var e := v.engines[id];
          v.(engines := v.engines[id := e.(src := v.src, levels := [],
                                           pending := e.pending + [ResetSelection])])
        else v
  }

  /** The engine signals readiness: its first queued callback runs. */
  function FireReady(v: View): View {
    match v.playerRef
    case None => v
    case Some(id) =>
      if id >= |v.engines| || v.engines[id].Disposed() || v.engines[id].pending == [] then v
      else
        var e := v.engines[id];
        var e' := e.(pending := e.pending[1..]);
        match e.pending[0]
        case SubscribeDiscovery =>
          v.(engines := v.engines[id := e'.(subscriptions := e.subscriptions + 1)])
        case ResetSelection =>
          v.(engines := v.engines[id := e'], levels := [], currentLevel := AUTO)
  }

  /** The engine announces a rendition; a listening view runs its state updater. */
  function LevelAdded(v: View, h: nat): View {
    match v.playerRef
    case None => v
    case Some(id) =>
      if id >= |v.engines| || v.engines[id].Disposed() then v
      else
        var e := v.engines[id];
        var w := v.(engines := v.engines[id := e.(levels := e.levels + [EngineLevel(h, true)])]);
        if e.subscriptions > 0 then w.(levels := AddLevel(v.levels, h)) else w
  }

  /** `handleQualityChange`: record the choice, then, when there is a player, rewrite the
      `enabled` flag of every rendition of its engine. */
  function Select(v: View, value: string): View {
    var w := v.(currentLevel := value);
    match v.playerRef
    case None => w
    case Some(id) =>
      if id < |v.engines| then
        w.(engines := v.engines[id := v.engines[id].(levels := ApplySelection(v.engines[id].levels, value))])
      else w
  }

  /** The cleanup closure: dispose the captured player if it is still alive, then forget it. */
  function Cleanup(v: View): View {
    match v.captured
    case None => v
    case Some(id) =>
      if id < |v.engines| && !v.engines[id].Disposed() then
        v.(engines := v.engines[id := v.engines[id].(disposals := v.engines[id].disposals + 1)],
           playerRef := None)
      else v
  }

  /** One event. React runs the `[src]` effect only when the prop changed, runs both effects
      in declaration order on mount, and runs the cleanup on unmount. A mount after an unmount
      is a new component instance, so its UI state starts empty and at "Auto". */
  function Step(v: View, ev: Event): View {
    match ev
    case Mount(src) =>
      if v.mounted then v
      else
        var w := SrcEffect(v.(mounted := true, src := src, levels := [], currentLevel := AUTO));
        w.(captured := w.playerRef)
    case ChangeSrc(src) =>
      if !v.mounted || src == v.src then v else SrcEffect(v.(src := src))
    case EngineReady => FireReady(v)
    case QualityLevelAdded(h) => LevelAdded(v, h)
    case SelectQuality(value) => Select(v, value)
    case Unmount => Cleanup(v).(mounted := false)
  }

  function Run(v: View, evs: seq<Event>): View
    decreases |evs|
  {
    if evs == [] then v else Run(Step(v, evs[0]), evs[1..])
  }

  /** The selector is rendered only once some height is listed. */
  predicate SelectorVisible(v: View) {
    |v.levels| > 0
  }

  /** The option values of the selector: "Auto", then each listed height. */
  function SelectorOptions(levels: seq<nat>): (opts: seq<string>)
    ensures |opts| == |levels| + 1 && opts[0] == AUTO
    ensures forall i :: 0 <= i < |levels| ==> opts[i + 1] == Text.NatToString(levels[i])
  {
    [AUTO] + seq(|levels|, i requires 0 <= i < |levels| => Text.NatToString(levels[i]))
  }

  /** With heights listed once, no two options share a value. */
  lemma SelectorOptionsDistinct(levels: seq<nat>)
    requires StrictlyDescending(levels)
    ensures forall i, j :: 0 <= i < j < |levels| + 1 ==> SelectorOptions(levels)[i] != SelectorOptions(levels)[j]
  {
    var opts := SelectorOptions(levels);
    forall i, j | 0 <= i < j < |levels| + 1 ensures opts[i] != opts[j] {
      if i == 0 {
        assert opts[j][0] != 'A';
      } else if opts[i] == opts[j] {
        Text.NatToStringInjective(levels[i - 1], levels[j - 1]);
      }
    }
  }

  /** Choosing an option of the selector: "Auto" enables every rendition of the engine, and the
      option of a listed height enables exactly the renditions of that height. */
  lemma SelectorOptionSelects(levels: seq<nat>, ls: seq<EngineLevel>, i: nat)
    requires i < |levels| + 1
    ensures var r := ApplySelection(ls, SelectorOptions(levels)[i]);
            forall k :: 0 <= k < |ls| ==> (r[k].enabled <==> i == 0 || ls[k].height == levels[i - 1])
  {
    if i > 0 {
      SelectHeightEnablesMatching(ls, levels[i - 1]);
    }
  }
}
