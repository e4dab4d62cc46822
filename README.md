# Tile puzzle pages, modelled in Dafny

The site has two pages around one arithmetic puzzle. The player gets up to
six positive tiles and a target number. They combine two tiles at a time
with +, −, × or ÷. The game is won when a combination's result equals the
target.

- **The game page** (`script.js`) holds a row of tiles. Each tile has a
  number, a check box and a shown/hidden state. The page also keeps a
  selection of at most two checked tiles, four operator buttons, an undo
  button, and an undo stack of snapshots.
- **The solver page** (`rachel/script.js`) reads a line of numbers: the
  tiles, then the target. It checks the count and every number. It pads the
  line to seven arguments with leading zeros and calls a compiled solver.

The project has three modules:

- `TileRules` (`rules.dfy`): which operator buttons are enabled for a pair
  of tile values, and what pressing one yields. The button rule is proved
  equivalent to "the exact result is a positive whole number".
- `TileGame` (`game.dfy`): the game page as a class `Game`. Its fields are
  the tile values, the boxes, the visibility flags, the selection, the undo
  stack, the button flags and the won flag; its methods update them in
  place. `Board` values and the spec functions `Toggled`, `Combined` and
  `Capture` state what each event does. The invariant `Consistent`
  (through `Game.Valid`) is kept by every event. A ghost `history` records
  the board each snapshot was taken from. With it, `Undo` is proved to
  bring back that board exactly, selection included.
- `SolverArgs` (`solver_args.dfy`): the submit handler `run`.
  - `trim`, `split(/\s+/)` and `parseInt` are written out on strings.
  - The handler is an imperative method with the same loops.
  - It is proved equal to the declarative `Expected`: a count error, else
    the first refused token, else a call with `Padded(Parsed(tokens))`.

Tiles are named by their position `0 .. size - 1`, not by the page's label
elements. The numbers and the target are constructor parameters. The solver
is a parameter `solver: seq<int> -> bool`.

## Model

| member | source | states |
|---|---|---|
| TileRules.Disabled | script.js:55-57 | the disabled rule for each operator; `EnabledIffTileValue` proves what it means |
| TileRules.Apply | script.js:81-94 | the result of an enabled button: for −, the positive difference of the two values; for ÷, an integer q with q · smaller = larger; positive whenever both tiles are |
| TileRules.EnabledIffTileValue | script.js:54-57 | on positive tiles, a button is enabled exactly when its exact (real) result is a positive whole number, and then that number is `Apply` |
| TileRules.QuotientIsWhole | script.js:57 | for m ≥ n > 0, the real quotient m / n is a whole number exactly when m % n is 0, and it then equals the integer quotient |
| TileRules.Commutes | script.js:50-57 | which buttons are enabled, and what they yield, does not depend on which tile was selected first |
| TileGame.IndexOf | script.js:23 | `indexOf`: -1 exactly when t is absent, otherwise a position holding t with no earlier t |
| TileGame.Capture | script.js:18-26 | the snapshot the page takes of a board; `CaptureRecords` states what it holds |
| TileGame.CaptureRecords | script.js:18-26 | one record per tile with its number, box and visibility; its selection index is -1 exactly when the tile is not selected, and otherwise a position of the selection holding the tile |
| TileGame.ButtonsFor | script.js:49-70 | the disabled flags the page sets for a board; `UpdateButtons` is proved to set them |
| TileGame.Game.constructor | script.js:139-144 | the page after loading: every tile taken as shown and unchecked (see "## Left out"), nothing selected, an empty stack, every button disabled, and the invariant holds |
| TileGame.Game.UpdateButtons | script.js:49-70 | with two selected, + and × enabled, − disabled iff the values are equal, ÷ disabled iff the larger is not a multiple of the smaller; otherwise all four disabled; undo disabled iff the stack is empty |
| TileGame.Game.SaveState | script.js:17-28 | pushes exactly one snapshot: each tile's number, box, position in the selection and visibility |
| TileGame.Toggled | script.js:106-116 | the board after a box flips; the selection only ever names tiles |
| TileGame.FollowBox | script.js:107-116 | the page's shift/push/splice code computes exactly the boxes and the selection of `Toggled` |
| TileGame.ToggleEffect | script.js:108-116 | checking a tile appends it, shifting out and unchecking the oldest when two are selected; unchecking removes that tile only, keeping the others in order; values and visibility unchanged |
| TileGame.CheckKeepsPlayable | script.js:108-113 | checking a shown tile keeps the selection at most two distinct, checked, shown tiles |
| TileGame.UncheckKeepsPlayable | script.js:114-116 | unchecking a selected tile keeps the board playable |
| TileGame.SpliceOne | script.js:115 | `splice(start, 1)`: removes the element at start when it is in range, removes nothing past the end, and never adds an element |
| TileGame.SpliceFromEnd | script.js:115 | a negative start counts from the end, and from 0 when it reaches past the front |
| TileGame.UncheckUnselected | script.js:114-115 | unchecking a checked tile that is not selected splices out the last selected tile instead, whose box stays as it was |
| TileGame.SpliceRemoves | script.js:115 | splicing at `indexOf(t)` removes t from its place and keeps the rest in order |
| TileGame.ToggleConsistent | script.js:106-119 | flipping the box of a shown tile keeps the page invariant, with the buttons recomputed |
| TileGame.Game.Toggle | script.js:106-119 | the tile-selected handler: the new board is `Toggled` of the old one, the invariant holds, and the game is not won |
| TileGame.Combined | script.js:96-99 | the board after a combination; `CombinedEffect` states what changes |
| TileGame.CombinedEffect | script.js:96-100 | the first selected tile takes the result and the second is hidden; no other tile changes; the selection is the first tile alone; one tile fewer is shown; positive tiles stay positive |
| TileGame.HideOne | script.js:97 | hiding a shown tile lowers the count of shown tiles by exactly one |
| TileGame.CombineKeepsPlayable | script.js:96-99 | after a combination the board is playable: the hidden tile keeps its check mark but is not selected |
| TileGame.CombineConsistent | script.js:96-99 | a combination that does not win keeps the invariant, with the board before it on top of the stack |
| TileGame.Game.Combine | script.js:76-104 | the operator handler: values and visibility become those of `Combined`; the game is won exactly when the result is the target; otherwise the board is `Combined` and the board before the move is pushed as one snapshot; a win empties the selection and the stack and disables every button; the invariant holds |
| TileGame.Game.EndGame | script.js:121-128 | selection and stack emptied, every button disabled, the game marked won (every tile control disabled) |
| TileGame.WriteAt | script.js:33 | a write into a JavaScript array: a negative index changes nothing; otherwise the slot holds t, the array grows past its end with holes, and no other slot changes |
| TileGame.Dense | script.js:33 | the selection held by a slot array without holes |
| TileGame.RestoreStep | script.js:31-33 | restoring tile i extends the restored part of the selection array; the −1 index of a hidden checked tile writes nothing |
| TileGame.RestoreTile | script.js:31-38 | restoring tile i from its record puts back its number, box and visibility and extends the selection array |
| TileGame.RestoreDone | script.js:30-38 | once every tile is restored, the selection array has no hole and holds the snapshot's selection |
| TileGame.RestoredAll | script.js:30-38 | once every tile is restored, values, boxes and visibility equal the snapshot's board |
| TileGame.Game.RestoreState | script.js:30-42 | restoring a snapshot taken before a combination brings back that board exactly, selection included, and recomputes the buttons |
| TileGame.PopConsistent | script.js:158 | popping the stack leaves a consistent page whose undo button is enabled iff the stack is still non-empty |
| TileGame.Game.Undo | script.js:158 | the undo handler pops one snapshot and the board becomes the one it was taken of, with the invariant kept |
| TileGame.CombineThenUndo | script.js:158 | pressing an enabled operator that does not win and then undo gives back the board and the stack as they were |
| SolverArgs.IsSpace | rachel/script.js:22-29 | the white-space set that `trim`, `\s` and `parseInt`'s leading skip share: ECMAScript's WhiteSpace and LineTerminator code points (U+0009–U+000D, U+0020, U+00A0, U+1680, U+2000–U+200A, U+2028, U+2029, U+202F, U+205F, U+3000, U+FEFF) |
| SolverArgs.TrimStart | rachel/script.js:22 | `trimStart` leaves a string that is empty or starts with a non-space |
| SolverArgs.TrimStartSuffix | rachel/script.js:22 | what `trimStart` keeps is the end of the string, and it drops only white space |
| SolverArgs.TrimEnd | rachel/script.js:22 | `trimEnd` drops only trailing white space and leaves no trailing white space |
| SolverArgs.TrimEndPrefix | rachel/script.js:22 | what `trimEnd` keeps is the start of the string |
| SolverArgs.FirstSpace | rachel/script.js:22 | the first white-space position: no white space before it |
| SolverArgs.Split | rachel/script.js:22 | `split(/\s+/)` gives at least one piece, and no piece contains white space; where it cuts is stated by `SplitCuts` and `InnerPiecesNonEmpty` |
| SolverArgs.Gaps | rachel/script.js:22 | the runs of white space a split cuts at: one fewer than the pieces (that each is a non-empty run of white space is `GapsAreGaps`) |
| SolverArgs.GapAt | rachel/script.js:22 | the white space at a cut runs from the first space to what `trimStart` keeps of the rest, and it is a non-empty run of white space |
| SolverArgs.CutAt | rachel/script.js:22 | at a cut, the string is the word before the first space, the run of white space, and what `trimStart` keeps of the rest |
| SolverArgs.JoinSplit | rachel/script.js:22 | the pieces of a string with its gaps between them give the string back |
| SolverArgs.GapsAreGaps | rachel/script.js:22 | every run a split cuts at is a non-empty run of white space |
| SolverArgs.InnerPiecesNonEmpty | rachel/script.js:22 | no piece of a split is empty except the first and the last, so `/\s+/` takes each run of white space whole |
| SolverArgs.SplitCuts | rachel/script.js:22 | a split cuts exactly at the maximal runs of white space: the string is its pieces, none holding white space, with a non-empty run of white space between each two, and only the first and last piece may be empty |
| SolverArgs.SplitKeepsNonSpace | rachel/script.js:22 | the pieces, put back together, are exactly the non-space characters of the string in order |
| SolverArgs.Trim | rachel/script.js:22 | `trim` leaves a string that is empty or starts and ends with a non-space |
| SolverArgs.TrimKeepsNonSpace | rachel/script.js:22 | trimming drops only white space |
| SolverArgs.SplitNonEmpty | rachel/script.js:22 | a string that starts and ends with a non-space splits into non-empty pieces |
| SolverArgs.Tokens | rachel/script.js:22 | `value.trim().split(/\s+/)`; what it gives is stated by `TokensOfLine` |
| SolverArgs.TokensOfLine | rachel/script.js:22 | the trimmed line is its tokens with a non-empty run of white space between each two; no token holds white space; together they are the line's non-space characters; a blank line gives one empty token, and otherwise no token is empty |
| SolverArgs.LeadingDigits | rachel/script.js:29 | the length of the longest run of digits at the start |
| SolverArgs.DigitsPositive | rachel/script.js:30 | a digit string has a value above 0 exactly when some digit is not 0 |
| SolverArgs.Decimal | rachel/script.js:29 | the decimal text of a positive number is a non-empty run of digits |
| SolverArgs.DecimalValue | rachel/script.js:29 | the digits of a number's decimal text have that number as their value |
| SolverArgs.ParseInt | rachel/script.js:29 | `parseInt` on decimal text: leading white space and one sign skipped, the longest run of digits read, no digit giving NaN (None); `ParseDecimal` and `AcceptedIff` are what is proved about it |
| SolverArgs.ParseDecimal | rachel/script.js:29 | `parseInt` of the decimal text of a positive number gives the number back |
| SolverArgs.Accepted | rachel/script.js:29-30 | a token passes the check when it parses to a number above 0; `AcceptedIff` says which tokens those are |
| SolverArgs.AcceptedIff | rachel/script.js:29-30 | a token is accepted exactly when, after its white space and an optional `+`, it starts with a run of digits that are not all 0; a `-` sign is refused |
| SolverArgs.FirstRefused | rachel/script.js:28-33 | the first token that does not parse to a number above 0, with every earlier token accepted; none only when every token is accepted |
| SolverArgs.RefusedAt | rachel/script.js:28-33 | the token where the left-to-right scan stops is the first refused one |
| SolverArgs.Parsed | rachel/script.js:29-35 | when every token is accepted, each is replaced by its positive parsed number, keeping the count |
| SolverArgs.AllParsed | rachel/script.js:28-36 | after the loop, every token is accepted and the argument array is the parsed numbers |
| SolverArgs.Padded | rachel/script.js:38-39 | exactly seven arguments: 7 − n zeros, then the n numbers in order, so the target is last |
| SolverArgs.PadOnce | rachel/script.js:39 | inserting one 0 at the front adds one leading zero |
| SolverArgs.PadFront | rachel/script.js:38-39 | the `splice(0, 0, 0)` loop ends with 7 − n zeros before the n arguments |
| SolverArgs.ExpectedRefused | rachel/script.js:28-33 | with a valid count, the first refused token decides the outcome: its alert, and no call |
| SolverArgs.ExpectedCall | rachel/script.js:38-42 | with a valid count and every token accepted, the solver is called with the padded numbers, and "no answer" is raised iff it fails |
| SolverArgs.CallSolver | rachel/script.js:38-42 | padding the parsed numbers and calling the solver gives the outcome `Expected` prescribes |
| SolverArgs.RunTokens | rachel/script.js:23-43 | the checks and the call on a token list give exactly `Expected`: a count error, else the first refused token, else a call with the padded numbers |
| SolverArgs.Expected | rachel/script.js:19-43 | the specification of a submission: a count outside 2..7 raises the count alert before any token is read; otherwise the first refused token raises "bad number: " with that token; otherwise the solver is called with `Padded(Parsed(tokens))` and "no answer" is raised iff it fails |
| SolverArgs.Run | rachel/script.js:19-43 | the submit handler on an input line gives `Expected` of the line's tokens |
| SolverArgs.Line | rachel/script.js:22 | the line typed for a list of numbers starts and ends with a digit |
| SolverArgs.SplitLine | rachel/script.js:22 | the line of a list of numbers splits into their decimal texts |
| SolverArgs.TokensOfNumbers | rachel/script.js:22 | the tokens of that line are the decimal texts of the numbers |
| SolverArgs.DecimalsParse | rachel/script.js:29-35 | every decimal text is accepted, and parsing them gives the numbers back |
| SolverArgs.LineReachesSolver | rachel/script.js:19-43 | a line of two to seven positive numbers reaches the solver as those numbers after 7 − n zeros, with no alert unless the solver finds no answer |

`Expected` (in `SolverArgs`) is the specification the handler is proved
against: a count outside 2..7 raises "fewer/more operands than expected"
before any token is read. Otherwise the first refused token raises "bad
number: " with that token. Otherwise the solver gets `Padded(Parsed(tokens))`.
The solver is called only on that last path, which `Outcome.call` records.

## Left out

- The solver `rachel.js` is compiled code without a readable form. It is a
  parameter `seq<int> -> bool`, and only the arguments it receives are
  modelled.
- Rendering and page wiring are not modelled: `syncTiles`, `showBanner`,
  `innerText`, the event handler assignments, `input.focus`,
  `output.value = ''`, and the cookie with its "Try again?" banner. These
  are browser I/O. An `alert` is modelled as the message in
  `Outcome.alert`.
- ParseInt: reads decimal text only (white space, an optional sign, then
  digits). A `0x` prefix, which JavaScript's `parseInt` reads as hexadecimal,
  is read here as the number 0.
- ParseInt: numbers are unbounded integers, so values beyond 2^53 do not
  lose precision as JavaScript numbers would.
- TileRules.Apply: division is exact integer division. The page divides in
  floating point, but only when the divisor divides the dividend, and
  `EnabledIffTileValue` proves that case gives this integer.
- TileRules.Apply: tile values and results are unbounded integers, so sums,
  products, remainders, the equality tests of `Disabled` and the win test
  of `TileGame.Game.Combine` are exact. The page computes them on
  JavaScript numbers (script.js:55-57, 83-92, 102), which round beyond
  2^53.
- TileGame.Game.constructor: the initial boxes and visibility of the tiles
  come from the page's HTML, which is not part of this model; the page's
  load code (script.js:136-161) sets neither `checked` nor `style.display`.
  The tiles are taken as unchecked and shown. A box that the markup, or a
  browser restoring form state on reload, leaves checked while the
  selection starts empty (script.js:139) would break `Playable`, which asks
  every checked tile outside the selection to be hidden, so the invariant
  would not hold from the start.
- TileGame.Game.constructor: the initial state of the buttons comes from
  the page's HTML, which is not part of this model. They are taken as all
  disabled, which is what `updateButtons` gives for an empty selection and
  an empty stack.
- TileGame.Game.constructor: assumes one label per number. The page builds
  its tiles over the labels of the markup (script.js:143-144), which is not
  part of this model; the model takes `size == |numbers|`.
- TileGame.Game.Toggle: requires a shown tile and a game not yet won. This
  is an assumption about the page's markup, which is not part of this
  model. A combination hides only the tile's label (script.js:97), and the
  handler receives the check box itself (script.js:107). The model assumes
  the box of a hidden tile cannot be reached. If it were unchecked,
  `indexOf` would give -1 and `splice(-1, 1)` would drop the last selected
  tile, which stays checked (`UncheckUnselected`). The page invariant
  `Consistent` would then no longer hold, and `Toggle` does not model that
  step. After a win every tile control is disabled (script.js:125).
- TileGame.Game.Combine: requires two selected tiles and an enabled
  operator; a disabled button cannot be pressed.
- TileGame.Game.Undo: requires a non-empty stack. The undo button is
  disabled when the stack is empty.
- TileGame.Game.RestoreState: is stated for snapshots on the stack. Each
  was taken with two distinct selected tiles, which is how the page
  produces them.
- A snapshot records visibility as a boolean, not as the `display` string
  (`''` or `'none'`). The page uses no other values.
