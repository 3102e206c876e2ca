# Portfolio discovery game, project filter and theme helpers in Dafny

This project models the logic of a personal-portfolio site written in TypeScript/React:

- the "discover" mini-game (`components/neobrutalism/info-game.tsx`): nine hidden facts on a
  3 x 3 grid, a cursor moved with wrap-around, a reveal action that counts each fact once,
  a detail overlay, and the keyboard and pointer handlers that drive them. The component's
  React state is one immutable `InfoGame.Game` value and each handler is a pure function on
  it; `InfoGame.Step` applies one UI event and `InfoGame.Run` a sequence of them in arrival
  order;
- the category/search filter of the project list (`components/neobrutalism/projects.tsx`),
  its reset button, and the index arithmetic that picks each card's tilt and offset;
- `applyThemeToBody` (`lib/theme-config.ts`) as a function on the set of body classes that
  also reports whether `classList.add` threw (a theme name containing whitespace makes an
  invalid class token), and the `THEME_COOKIE_NAME`/`DEFAULT_THEME` constants;
- the theme colour table and `getColorByName` (`lib/colors.ts`).

Modules: `JsNumber` (JavaScript's truncating `%` and the arithmetic facts the proofs need),
`Grid` (cursor arithmetic), `InfoGame` (the reducer), `Text` (lower-casing, `includes`,
`startsWith`, `endsWith`), `Seqs` (`filter` and subsequences), `Projects`, `ThemeConfig`,
`Colors`, and `Wrappers` (the `Option` standing for `undefined`/`null`).

The cursor arithmetic is kept exactly as written, including for item counts that do not
fill whole rows. With `side` the least integer whose square is at least N, the moves are
closed over `[0, N)` only when N is a multiple of `side` (`Grid.MoveStaysInRange`; N = 9
qualifies, `Grid.NineItemsSideThree`). For other N a move can land past the last item:
with 7 items, left from 6 gives 8 (`Grid.LeftLeavesRaggedRow`). The discover handler
reduces the cursor modulo N before the lookup, so the game stays defined. What does hold
for every N is that the cursor stays inside the rows the grid uses, `[0, Span(N))`
(`Grid.MoveStaysInSpan`), and this is part of the reachable-state invariant `InfoGame.Inv`.

Some behaviours of the code are easy to miss; the model keeps them:

- a click on a discovered cell toggles its overlay even when it is the current cell, because
  the `discovered` test comes before the cursor test; re-activating the same cell with the
  keyboard keeps the overlay open instead (`InfoGame.ClickOnCurrentDiscoveredToggles`);
- a click that jumps the cursor to an undiscovered cell leaves the overlay as it was, while
  every move closes it (`InfoGame.ClickJumpKeepsOverlay`);
- `handleMove` does not look at `gameStarted` itself: the gating comes from the keydown
  listener, which is attached only once the game has started, and from the on-screen arrow
  buttons, which are disabled before the start;
- the overlay's close button is not gated; it makes no difference, because no overlay is open
  before the start (`InfoGame.Inv`).

## Model

| member | source | states |
|---|---|---|
| JsNumber.JsRem | components/neobrutalism/info-game.tsx:146 | JavaScript `%` for a positive divisor: congruent to the dividend, smaller than the divisor in magnitude, with the dividend's sign |
| Grid.CeilSqrt | components/neobrutalism/info-game.tsx:111 | the grid side is the least `s` with `s * s >= N` (integer form of `Math.ceil(Math.sqrt(N))`) |
| Grid.Side | components/neobrutalism/info-game.tsx:111 | `gridSize` is the least `s` with `s * s >= N`, and for at least one item it lies between 1 and N |
| Grid.NineItemsSideThree | components/neobrutalism/info-game.tsx:30-111 | the nine items make a 3 x 3 grid, so they fill whole rows |
| Grid.MovePosition | components/neobrutalism/info-game.tsx:114-137 | the `handleMove` switch: a non-negative cursor stays non-negative, and left and right wrap within the cursor's row (same `position / side`); range and inverse properties are the `Grid.MoveStaysInSpan`, `Grid.MoveStaysInRange` and `Grid.RightThenLeft`..`Grid.DownThenUp` lemmas |
| Grid.MoveStaysInSpan | components/neobrutalism/info-game.tsx:114-137 | for every N, each direction maps the used rows `[0, Span(N))` into themselves |
| Grid.MoveStaysInRange | components/neobrutalism/info-game.tsx:111-137 | when N is a multiple of the side, each direction maps `[0, N)` into `[0, N)` |
| Grid.LeftLeavesRaggedRow | components/neobrutalism/info-game.tsx:123-128 | with 7 items (side 3) left from 6 gives 8, outside the items |
| Grid.RightThenLeft | components/neobrutalism/info-game.tsx:123-136 | right then left returns to the start from any non-negative position |
| Grid.LeftThenRight | components/neobrutalism/info-game.tsx:123-136 | left then right returns to the start from any non-negative position |
| Grid.UpThenDown | components/neobrutalism/info-game.tsx:115-122 | up then down returns to the start from any position in `[0, N)` |
| Grid.DownThenUp | components/neobrutalism/info-game.tsx:115-122 | down then up returns to the start from any position in `[0, N)` |
| InfoGame.Initial | components/neobrutalism/info-game.tsx:30-99 | the mount state has nine hidden items, cursor 0, count 0, no overlay, not started, and satisfies the invariant |
| InfoGame.Start | components/neobrutalism/info-game.tsx:102-104 | starting sets `gameStarted` and changes nothing else |
| InfoGame.Move | components/neobrutalism/info-game.tsx:107-140 | a move closes the overlay, keeps items, count and started flag, and keeps the cursor non-negative |
| InfoGame.Target | components/neobrutalism/info-game.tsx:146 | the discovered index is the cursor reduced modulo N, always a valid index, and the cursor itself when it is on an item |
| InfoGame.MarkAddsIndex | components/neobrutalism/info-game.tsx:152-155 | setting one hidden flag adds exactly that index to the discovered set, so the number of discovered items grows by one |
| InfoGame.Discover | components/neobrutalism/info-game.tsx:143-157 | ignored before the start; otherwise the target becomes discovered and its overlay opens, the count grows by one exactly when it was hidden, and only that flag changes |
| InfoGame.DiscoverTwiceCountsOnce | components/neobrutalism/info-game.tsx:146-156 | activating twice in a row is the same as activating once, so an item is counted at most once |
| InfoGame.Click | components/neobrutalism/info-game.tsx:160-173 | ignored before the start; on a discovered cell the overlay toggles for that index with cursor and count unchanged; on the current hidden cell it is discover; elsewhere only the cursor moves |
| InfoGame.ClickOnCurrentDiscoveredToggles | components/neobrutalism/info-game.tsx:163-168 | clicking the current, discovered cell with its overlay open closes the overlay, while discover keeps it open |
| InfoGame.ClickJumpKeepsOverlay | components/neobrutalism/info-game.tsx:169-172 | a click that jumps to a hidden cell moves the cursor there and leaves the overlay as it was |
| InfoGame.HandleKey | components/neobrutalism/info-game.tsx:176-205 | before the start no key does anything; after it the arrows move, Enter and space discover, Escape closes the overlay, other keys change nothing, and the default is suppressed exactly for the four arrows and space |
| InfoGame.Step | components/neobrutalism/info-game.tsx:266-398 | every UI event keeps the cursor non-negative, changes only `discovered` flags and never clears one, never un-starts the game, and raises the count by at most one |
| InfoGame.StepPreservesInv | components/neobrutalism/info-game.tsx:96-173 | every event keeps the invariant: count equals the number of discovered items, cursor within the used rows, overlay only on a discovered item, and nothing changed before the start |
| InfoGame.Run | components/neobrutalism/info-game.tsx:176-210 | a sequence of events never hides a discovered item, never changes item content and never un-starts the game |
| InfoGame.RunAppend | components/neobrutalism/info-game.tsx:176-210 | running two event sequences one after the other is running their concatenation |
| InfoGame.RunPreservesInv | components/neobrutalism/info-game.tsx:96-157 | after any sequence of events from a reachable state the count still equals the number of discovered items (and the rest of the invariant holds) |
| InfoGame.GatedBeforeStart | components/neobrutalism/info-game.tsx:177 | before the start, any sequence of events without the start leaves the whole state unchanged |
| InfoGame.CursorOnItem | components/neobrutalism/info-game.tsx:111-139 | in a reachable state whose items fill whole rows the cursor is on an item |
| InfoGame.OpeningSession | components/neobrutalism/info-game.tsx:102-205 | on the nine items: start, right x3 wraps 2 to 0, down gives 3, Enter reveals item 3 with count 1, Escape closes, and a later click on 3 reopens it with count 1 |
| Text.Includes | components/neobrutalism/projects.tsx:119-122 | `includes` is true exactly when the needle occurs at some offset of the haystack |
| Text.Lower | components/neobrutalism/projects.tsx:119-122 | `toLowerCase` keeps the length and folds each ASCII capital to its small letter, leaving every other character alone |
| Text.StartsWith | lib/theme-config.ts:25 | `startsWith` holds exactly when the prefix is no longer than the string and agrees with it character by character |
| Text.EndsWith | lib/theme-config.ts:34 | `endsWith` holds exactly when the suffix is no longer than the string and agrees with its last characters |
| Seqs.SubsequenceTransitive | components/neobrutalism/projects.tsx:111-124 | a subsequence of a subsequence is a subsequence, so chaining two filters keeps the original order |
| Seqs.Filter | components/neobrutalism/projects.tsx:114-124 | `filter` keeps every occurrence of each element that passes and drops every one that fails (multiset counts), as a subsequence of its input |
| Seqs.FilterAll | components/neobrutalism/projects.tsx:114-124 | filtering with a test every element passes returns the input |
| Seqs.FilterSameTest | components/neobrutalism/projects.tsx:114-124 | two tests that agree on every element give the same filtered sequence |
| Seqs.FilterTwice | components/neobrutalism/projects.tsx:111-124 | filtering by one test and then another is filtering once by both |
| Projects.VisibleProjects | components/neobrutalism/projects.tsx:110-128 | the shown projects are a subsequence of all projects and are exactly those whose category matches unless it is "all" and that contain the search term case-insensitively in title, description or a technology unless the term is empty |
| Projects.VisibleIsOneFilter | components/neobrutalism/projects.tsx:110-128 | the category-then-search pipeline equals a single `filter` by the one-step selection test, so every passing project is kept with its multiplicity and order |
| Projects.ResetFilters | components/neobrutalism/projects.tsx:376-379 | after the reset every project passes the filters |
| Projects.ResetShowsAll | components/neobrutalism/projects.tsx:376-379 | after the reset the shown list is the full list in its original order |
| Projects.EmptySearchFiltersNothing | components/neobrutalism/projects.tsx:117 | an empty term would match every project, so skipping the search for it changes nothing |
| Projects.GetRandomRotation | components/neobrutalism/projects.tsx:172-175 | the tilt is defined exactly when `id % 5` (JavaScript) is non-negative, in particular for every `id >= 0`, where it is the tilt at `id % 5` |
| Projects.GetRandomTransform | components/neobrutalism/projects.tsx:178-188 | the offset is defined exactly when `id % 6` (JavaScript) is non-negative, in particular for every `id >= 0`, where it is the offset at `id % 6` |
| Projects.At | components/neobrutalism/projects.tsx:172-188 | JavaScript array indexing: an element exactly for an index inside the array, `undefined` otherwise |
| Projects.EveryCardStyled | components/neobrutalism/projects.tsx:40-101 | every demo project gets both a tilt and an offset |
| ThemeConfig.ThemeClass | lib/theme-config.ts:31 | the class of a theme starts with "theme-" and the rest of it is the theme name |
| ThemeConfig.ApplyThemeToBody | lib/theme-config.ts:22-37 | classes not starting with "theme-" are kept exactly; adding the theme's class throws exactly when the theme contains ASCII whitespace, leaving no theme class; otherwise the theme's class is present, "theme-scaled" is present for a scaled theme, and no other "theme-" class remains |
| ThemeConfig.SingleThemeClass | lib/theme-config.ts:24-31 | for a theme that is not a scaled variant the theme's class is the only "theme-" class left (none when adding it threw) |
| ThemeConfig.ThemeClassesForgotten | lib/theme-config.ts:24-28 | the result does not depend on which "theme-" classes were present before |
| ThemeConfig.ApplyIdempotent | lib/theme-config.ts:22-37 | applying the same theme twice gives the classes, and the same exception outcome, of applying it once |
| Colors.FindByName | lib/colors.ts:68 | `find` returns nothing exactly when no entry has the name, and otherwise the first entry in table order that has it |
| Colors.GetColorByName | lib/colors.ts:67-69 | a returned colour is a table entry with the requested name, the first one; undefined exactly when no entry has that name |
| Colors.NamesDistinct | lib/colors.ts:19-60 | the five names in the table are pairwise distinct, so a match is unique |
| Colors.EveryColorFound | lib/colors.ts:19-69 | each table entry is found under its own name |

## Left out

- Rendering: JSX, icons, Tailwind class strings and the category-to-colour/icon switches of both components are presentation only.
- `Math.ceil(Math.sqrt(n))` is floating point; it is replaced by the integer ceiling of the square root, which agrees with it for the item counts the component uses.
- React state batching, stale closures and the add/remove of the window keydown listener are event-loop plumbing; events are modelled as serialized reducer steps, and "no listener" as a keydown that does nothing.
- `toLowerCase` is modelled as ASCII case folding only; full Unicode case mapping is not modelled.
- `setThemeCookie` and the cookie read at page load are browser and server I/O; only the cookie name and default theme constants are kept.
- The body's class list is modelled as a set of class names; the order of classes in the DOM list is not modelled.
- lib/theme-context.tsx (React context wiring, including `initialTheme || DEFAULT_THEME`), the background animation, the hero, the navbar, the theme picker and toggle, the page and layout files, the Next.js configuration and lib/utils.ts are not part of this model: they are UI, randomness, timers or configuration.
- Clicks are only modelled on indices of rendered cells (`0 <= index < N`); the source never produces others, and an out-of-range index would make its item lookup throw.
