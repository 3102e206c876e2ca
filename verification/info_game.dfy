/**
 The "discover" mini-game of components/neobrutalism/info-game.tsx as a pure reducer.
 The component's React state (the item list, `currentPosition`, `discoveredCount`,
 `gameStarted`, `expandedItem`) is one immutable `Game` value, and every event handler
 is a function from the state before the event to the state after it. Events are
 applied one at a time, in arrival order.
 */
module InfoGame {
  import opened Wrappers
  import opened Grid
  import opened JsNumber

  datatype Category = Skills | Experience | Education | Hobbies | Facts

  /** One discoverable fact; everything but `discovered` is fixed content. */
  datatype InfoItem = InfoItem(id: int, category: Category, title: string, content: string, discovered: bool)

  datatype Game = Game(
    items: seq<InfoItem>,
    position: int,          // currentPosition
    discoveredCount: int,
    started: bool,          // gameStarted
    expanded: Option<int>)  // expandedItem: the item whose detail overlay is open

  /** The nine facts the component starts with, all hidden. */
  const InitialItems: seq<InfoItem> := [
    InfoItem(1, Skills, "TypeScript Expert",
      "5+ years of TypeScript development experience, specializing in type safety and design patterns.", false),
    InfoItem(2, Skills, "React Ninja",
      "Deep knowledge of React's internals and performance optimization techniques.", false),
    InfoItem(3, Skills, "Next.js Wizard",
      "Built multiple production applications with Next.js, focusing on server components and data fetching.", false),
    InfoItem(4, Experience, "Senior Frontend Engineer",
      "Worked at TechCorp leading a team of 5 developers on a customer-facing application.", false),
    InfoItem(5, Experience, "Startup Founder",
      "Co-founded a SaaS startup focusing on developer productivity tools.", false),
    InfoItem(6, Education, "Computer Science Degree",
      "Bachelor's in Computer Science with a focus on algorithms and data structures.", false),
    InfoItem(7, Hobbies, "Open Source Contributor",
      "Regular contributor to React and TypeScript ecosystem projects.", false),
    InfoItem(8, Facts, "Conference Speaker",
      "Presented at multiple tech conferences on frontend architecture and best practices.", false),
    InfoItem(9, Facts, "World Traveler",
      "Visited over 20 countries, working remotely while experiencing different cultures.", false)
  ]

  /** The events the component reacts to. */
  datatype Command =
    | StartGame                // the "Start Game" button
    | KeyDown(key: string)     // a window keydown event, by its `key` string
    | ItemClick(index: int)    // a click on a grid cell or on a discovered-item badge
    | MoveButton(dir: Direction)  // the on-screen arrow buttons, disabled before the start
    | DiscoverButton           // the on-screen "Discover" button, disabled before the start
    | CloseOverlay             // the close button of the detail overlay

  /** What a keydown does: the next state, and whether the browser's default action is suppressed. */
  datatype KeyOutcome = KeyOutcome(game: Game, preventDefault: bool)

  /** The indices of the items that have been discovered. */
  function DiscoveredIndices(items: seq<InfoItem>): set<int>
  {
    set i | 0 <= i < |items| && items[i].discovered
  }

  /** Only the `discovered` flags may differ between `a` and `b`. */
  ghost predicate SameContent(a: seq<InfoItem>, b: seq<InfoItem>)
  {
    |a| == |b| && forall i | 0 <= i < |a| :: a[i].(discovered := b[i].discovered) == b[i]
  }

  /** Every item discovered in `a` is still discovered in `b`. */
  ghost predicate NoneHidden(a: seq<InfoItem>, b: seq<InfoItem>)
  {
    |a| == |b| && forall i | 0 <= i < |a| :: a[i].discovered ==> b[i].discovered
  }

  /** What the handlers need in order to be defined: a non-empty item list and a
      non-negative cursor (the item lookup `items[position % N]` fails otherwise). */
  predicate WellFormed(g: Game)
  {
    |g.items| > 0 && g.position >= 0
  }

  /** The invariant of every reachable state. */
  ghost predicate Inv(g: Game)
  {
    && WellFormed(g)
    && g.position < Span(|g.items|)
    && g.discoveredCount == |DiscoveredIndices(g.items)|
    && (g.expanded.Some? ==> 0 <= g.expanded.value < |g.items| && g.items[g.expanded.value].discovered)
    && (!g.started ==> g.position == 0 && g.expanded == None && DiscoveredIndices(g.items) == {})
  }

  /** The state on mount. */
  function Initial(): (g: Game)
    ensures Inv(g) && !g.started
    ensures |g.items| == 9 && g.position == 0 && g.discoveredCount == 0 && g.expanded == None
  {
    var g := Game(InitialItems, 0, 0, false, None);
    assert DiscoveredIndices(InitialItems) == {};
    g
  }

  /** `handleStartGame`: the game is started and nothing else changes. */
  function Start(g: Game): (r: Game)
    ensures r.started
    ensures r.items == g.items && r.position == g.position
    ensures r.discoveredCount == g.discoveredCount && r.expanded == g.expanded
  {
    g.(started := true)
  }

  /** `handleMove`: closes the overlay and moves the cursor. The handler itself does not
      look at `gameStarted`; its callers are only reachable once the game has started. */
  function Move(g: Game, dir: Direction): (r: Game)
    requires WellFormed(g)
    ensures WellFormed(r)
    ensures r.expanded == None
    ensures r.items == g.items && r.discoveredCount == g.discoveredCount && r.started == g.started
    ensures r.position == MovePosition(g.position, |g.items|, dir)
  {
    g.(expanded := None, position := MovePosition(g.position, |g.items|, dir))
  }

  /** The item `handleDiscover` acts on: the cursor reduced modulo the number of items. */
  function Target(g: Game): (i: int)
    requires WellFormed(g)
    ensures 0 <= i < |g.items|
    ensures i == g.position % |g.items|
    ensures g.position < |g.items| ==> i == g.position
  {
    JsRem(g.position, |g.items|)
  }

  /** Marking item `i` discovered adds exactly `i` to the discovered indices. */
  lemma MarkAddsIndex(items: seq<InfoItem>, i: int)
    requires 0 <= i < |items|
    ensures DiscoveredIndices(items[i := items[i].(discovered := true)]) == DiscoveredIndices(items) + {i}
    ensures !items[i].discovered ==>
      |DiscoveredIndices(items[i := items[i].(discovered := true)])| == |DiscoveredIndices(items)| + 1
  {
  }

  /** `handleDiscover`: ignored before the start; otherwise reveals the targeted item if it is
      still hidden (counting it once) and opens its overlay. */
  function Discover(g: Game): (r: Game)
    requires WellFormed(g)
    ensures WellFormed(r)
    ensures SameContent(g.items, r.items)
    ensures !g.started ==> r == g
    ensures g.started ==>
      && r.started && r.position == g.position
      && r.expanded == Some(Target(g))
      && r.items[Target(g)].discovered
      && DiscoveredIndices(r.items) == DiscoveredIndices(g.items) + {Target(g)}
    ensures g.started && g.items[Target(g)].discovered ==>
      r.items == g.items && r.discoveredCount == g.discoveredCount
    ensures g.started && !g.items[Target(g)].discovered ==>
      r.discoveredCount == g.discoveredCount + 1
      && |DiscoveredIndices(r.items)| == |DiscoveredIndices(g.items)| + 1
  {
    if !g.started then g
    else
      var i := Target(g);
      MarkAddsIndex(g.items, i);
      if g.items[i].discovered then
        assert g.items[i := g.items[i].(discovered := true)] == g.items;
        g.(expanded := Some(i))
      else
        g.(items := g.items[i := g.items[i].(discovered := true)],
           discoveredCount := g.discoveredCount + 1,
           expanded := Some(i))
  }

  /** `handleItemClick`. The `discovered` test comes before the cursor test, so a click on
      the current, already discovered cell toggles its overlay rather than re-opening it. */
  function Click(g: Game, index: int): (r: Game)
    requires WellFormed(g) && 0 <= index < |g.items|
    ensures WellFormed(r)
    ensures !g.started ==> r == g
    ensures g.started && g.items[index].discovered ==>
      && r.items == g.items && r.position == g.position && r.discoveredCount == g.discoveredCount
      && (g.expanded == Some(index) ==> r.expanded == None)
      && (g.expanded != Some(index) ==> r.expanded == Some(index))
    ensures g.started && !g.items[index].discovered && index == g.position ==> r == Discover(g)
    ensures g.started && !g.items[index].discovered && index != g.position ==>
      r == g.(position := index)
  {
    if !g.started then g
    else if g.items[index].discovered then
      g.(expanded := if g.expanded == Some(index) then None else Some(index))
    else if index == g.position then
      Discover(g)
    else
      g.(position := index)
  }

  /** The keys whose default browser action (scrolling) the listener suppresses. */
  const ScrollKeys: seq<string> := ["ArrowUp", "ArrowDown", "ArrowLeft", "ArrowRight", " "]

  /** The keydown listener, attached only while the game is started. */
  function HandleKey(g: Game, key: string): (r: KeyOutcome)
    requires WellFormed(g)
    ensures WellFormed(r.game)
    ensures !g.started ==> r == KeyOutcome(g, false)
    ensures g.started ==> (r.preventDefault <==> key in ScrollKeys)
    ensures g.started && key == "ArrowUp" ==> r.game == Move(g, Up)
    ensures g.started && key == "ArrowDown" ==> r.game == Move(g, Down)
    ensures g.started && key == "ArrowLeft" ==> r.game == Move(g, Left)
    ensures g.started && key == "ArrowRight" ==> r.game == Move(g, Right)
    ensures g.started && (key == "Enter" || key == " ") ==> r.game == Discover(g)
    ensures g.started && key == "Escape" ==> r.game == g.(expanded := None)
    ensures key !in ScrollKeys && key != "Enter" && key != "Escape" ==> r.game == g
  {
    if !g.started then KeyOutcome(g, false)
    else
      var next :=
        if key == "ArrowUp" then Move(g, Up)
        else if key == "ArrowDown" then Move(g, Down)
        else if key == "ArrowLeft" then Move(g, Left)
        else if key == "ArrowRight" then Move(g, Right)
        else if key == "Enter" || key == " " then Discover(g)
        else if key == "Escape" then g.(expanded := None)
        else g;
      KeyOutcome(next, key in ScrollKeys)
  }

  /** The commands a state can receive: clicks only land on rendered cells. */
  predicate Accepts(g: Game, cmd: Command)
  {
    cmd.ItemClick? ==> 0 <= cmd.index < |g.items|
  }

  /** One event applied to the state. */
  function Step(g: Game, cmd: Command): (r: Game)
    requires WellFormed(g) && Accepts(g, cmd)
    ensures WellFormed(r)
    ensures SameContent(g.items, r.items)
    ensures NoneHidden(g.items, r.items)
    ensures g.started ==> r.started
    ensures r.discoveredCount == g.discoveredCount || r.discoveredCount == g.discoveredCount + 1
  {
    match cmd
    case StartGame => Start(g)
    case KeyDown(key) => HandleKey(g, key).game
    case ItemClick(index) => Click(g, index)
    case MoveButton(dir) => if g.started then Move(g, dir) else g
    case DiscoverButton => Discover(g)
    case CloseOverlay => g.(expanded := None)
  }

  /** A move keeps the cursor within the rows the grid uses. */
  lemma MovePreservesInv(g: Game, dir: Direction)
    requires Inv(g) && g.started
    ensures Inv(Move(g, dir))
  {
    MoveStaysInSpan(g.position, |g.items|, dir);
  }

  /** Discovering keeps the count equal to the discovered items and opens the overlay on one. */
  lemma DiscoverPreservesInv(g: Game)
    requires Inv(g)
    ensures Inv(Discover(g))
  {
  }

  /** Whatever key is pressed, the invariant holds afterwards. */
  lemma KeyPreservesInv(g: Game, key: string)
    requires Inv(g)
    ensures Inv(HandleKey(g, key).game)
  {
    if g.started {
      forall d: Direction ensures Inv(Move(g, d)) {
        MovePreservesInv(g, d);
      }
      DiscoverPreservesInv(g);
    }
  }

  /** Every command keeps the invariant of reachable states. */
  lemma StepPreservesInv(g: Game, cmd: Command)
    requires Inv(g) && Accepts(g, cmd)
    ensures Inv(Step(g, cmd))
  {
    match cmd
    case StartGame =>
    case KeyDown(key) =>
      KeyPreservesInv(g, key);
    case ItemClick(index) =>
      DiscoverPreservesInv(g);
    case MoveButton(dir) =>
      if g.started { MovePreservesInv(g, dir); }
    case DiscoverButton =>
      DiscoverPreservesInv(g);
    case CloseOverlay =>
  }

  /** The commands a sequence can carry for a game of `n` items. */
  predicate AllAccepted(n: nat, cmds: seq<Command>)
  {
    forall k | 0 <= k < |cmds| :: cmds[k].ItemClick? ==> 0 <= cmds[k].index < n
  }

  /** A sequence of events applied in arrival order. */
  function Run(g: Game, cmds: seq<Command>): (r: Game)
    requires WellFormed(g) && AllAccepted(|g.items|, cmds)
    ensures WellFormed(r)
    ensures SameContent(g.items, r.items)
    ensures NoneHidden(g.items, r.items)
    ensures g.started ==> r.started
    decreases |cmds|
  {
    if |cmds| == 0 then g
    else
      var next := Step(g, cmds[0]);
      Run(next, cmds[1..])
  }

  /** The invariant holds after any sequence of events. */
  lemma {:induction false} RunPreservesInv(g: Game, cmds: seq<Command>)
    requires Inv(g) && AllAccepted(|g.items|, cmds)
    ensures Inv(Run(g, cmds))
    decreases |cmds|
  {
    if |cmds| > 0 {
      StepPreservesInv(g, cmds[0]);
      RunPreservesInv(Step(g, cmds[0]), cmds[1..]);
    }
  }

  /** Before the start, every event but the start leaves the state exactly as it is. */
  lemma {:induction false} GatedBeforeStart(g: Game, cmds: seq<Command>)
    requires Inv(g) && !g.started && AllAccepted(|g.items|, cmds)
    requires forall k | 0 <= k < |cmds| :: cmds[k] != StartGame
    ensures Run(g, cmds) == g
    decreases |cmds|
  {
    if |cmds| > 0 {
      assert Step(g, cmds[0]) == g;
      GatedBeforeStart(g, cmds[1..]);
    }
  }

  /** In any reachable state whose items fill whole rows the cursor is on an item. */
  lemma CursorOnItem(g: Game)
    requires Inv(g) && |g.items| % Side(|g.items|) == 0
    ensures 0 <= g.position < |g.items|
  {
    AlignedGap(|g.items|, Span(|g.items|), Side(|g.items|));
  }

  /** Activating twice in a row counts the item at most once. */
  lemma DiscoverTwiceCountsOnce(g: Game)
    requires WellFormed(g)
    ensures Discover(Discover(g)) == Discover(g)
  {
  }

  /** Clicking the current cell once it is discovered closes an open overlay, whereas
      activating it with the keyboard keeps the overlay open. */
  lemma ClickOnCurrentDiscoveredToggles(g: Game)
    requires WellFormed(g) && g.started && g.position < |g.items|
    requires g.items[g.position].discovered && g.expanded == Some(g.position)
    ensures Click(g, g.position).expanded == None
    ensures Discover(g).expanded == Some(g.position)
  {
  }

  /** A click that only jumps the cursor leaves the overlay as it was, while a move closes it. */
  lemma ClickJumpKeepsOverlay(g: Game, index: int)
    requires WellFormed(g) && g.started && 0 <= index < |g.items|
    requires !g.items[index].discovered && index != g.position
    ensures Click(g, index).expanded == g.expanded
    ensures Click(g, index).position == index
  {
  }

  /** A session on the nine initial items: start, three moves right (the third wraps from
      the end of the first row back to its start), one move down, activate, close; then one
      more move right and a click on the discovered cell, which opens its overlay. */
  lemma OpeningSession()
    ensures var g := Step(Step(Initial(), StartGame), KeyDown("ArrowRight"));
      g.position == 1
    ensures var g := Step(Step(Step(Initial(), StartGame), KeyDown("ArrowRight")), KeyDown("ArrowRight"));
      var h := Step(Step(g, KeyDown("ArrowRight")), KeyDown("ArrowDown"));
      var k := Step(h, KeyDown("Enter"));
      var m := Step(k, KeyDown("Escape"));
      var c := Step(Step(m, KeyDown("ArrowRight")), ItemClick(3));
      && g.position == 2 && h.position == 3
      && k.items[3].discovered && k.discoveredCount == 1 && k.expanded == Some(3)
      && m.expanded == None && DiscoveredIndices(m.items) == {3}
      && c.position == 4 && c.discoveredCount == 1 && c.expanded == Some(3)
  {
    NineItemsSideThree();
    var g0 := Initial();
    var g1 := Step(g0, StartGame);
    var g2 := Step(g1, KeyDown("ArrowRight"));
    assert g2.position == 1;
    var g3 := Step(g2, KeyDown("ArrowRight"));
    assert g3.position == 2;
    var g4 := Step(g3, KeyDown("ArrowRight"));
    assert g4.position == 0;
    var g5 := Step(g4, KeyDown("ArrowDown"));
    assert g5.position == 3;
    var g6 := Step(g5, KeyDown("Enter"));
    assert g6.expanded == Some(3) && g6.discoveredCount == 1;
    var g7 := Step(g6, KeyDown("Escape"));
    MarkAddsIndex(g5.items, 3);
    assert DiscoveredIndices(g7.items) == {3};
    var g8 := Step(g7, KeyDown("ArrowRight"));
    assert g8.position == 4;
  }

  /** Running two sequences one after the other is running their concatenation. */
  lemma {:induction false} RunAppend(g: Game, a: seq<Command>, b: seq<Command>)
    requires WellFormed(g) && AllAccepted(|g.items|, a) && AllAccepted(|g.items|, b)
    ensures AllAccepted(|g.items|, a + b)
    ensures Run(g, a + b) == Run(Run(g, a), b)
    decreases |a|
  {
    if |a| > 0 {
      assert (a + b)[0] == a[0] && (a + b)[1..] == a[1..] + b;
      RunAppend(Step(g, a[0]), a[1..], b);
    } else {
      assert a + b == b;
    }
  }
}
