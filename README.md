# Snack measurer core, modelled in Dafny

The application photographs a Kerala tea-time snack and has a vision model
classify it: parippuvada (a round fritter), vazhaikkapam (an elliptical
fritter), samoosa (a triangle) or unknown. The model also measures the snack.
The program then cleans up the measurements and computes an area: a circle, an
ellipse, or Heron's formula. It compares that area with the largest snack of
the same type measured in this server session, stores it in an append-only
session list, and reports the record holder of each type. The browser keeps a
five-entry leaderboard sorted by area, and a bar chart of the first entry of
each type.

The model has four modules:

- `Snacks` (`snacks.dfy`) holds the shared vocabulary:
  - the snack types and nullable values;
  - JavaScript truthiness on nullable strings and numbers;
  - thrown values;
  - the three area formulas. `Math.PI` is the literal `3.141592653589793`. `Math.sqrt` is a function parameter, only assumed to be positive on positive input.
- `SnackDimensions` (`snack_dimensions.dfy`) is the cleanup of the classifier's raw record:
  - `Clean` and `DimensionsFlow` are the specification;
  - `SnackDimensionsFlow` is the flow as written. It updates the returned record field by field, and it is proved equal to the specification.
- `SessionStore` (`session_store.dfy`) is the server action:
  - `SnackSession` is a class over the module-level `sessionSnacks` list;
  - its method `AnalyzeAndCompareSnack` mirrors the action step by step;
  - the method is proved equal to the pure `Analyze`;
  - the largest-of-type query, the winners snapshot, the record test, the commentary request and the catch-clause messages are functions with their own contracts.
- `Leaderboard` (`leaderboard.dfy`) is the analyzer component's bookkeeping:
  - the stable descending sort and the top-five cut;
  - the first-of-type chart query;
  - the routing of a dimension record to an area;
  - the class `SnackAnalyzer`, which holds the component's state (`leaderboard`, `snackResult`, `chartData`). Its invariant: the board is sorted, has at most 5 entries, and the chart shows the current board.

The classifier call, the commentary call and `Math.sqrt` are parameters of the action. The fresh snack id is a parameter too. Each call is atomic.

On a tie, `getLargestSnack` folds with `prev.area > current.area ? prev : current`, so among snacks of equal largest area it returns the one stored LAST, not the first. `ReduceKeepsLastMaximum` and `LargestAfterAppend` state this. `WinnersAfterAppend` shows the consequence: a snack that only ties the record becomes the winner, but it is not reported as a new record.

## Model

| member | source | states |
|---|---|---|
| Snacks.EllipseArea | src/app/actions.ts:86-88 | the ellipse area is positive when both axes are positive |
| Snacks.CircleArea | src/app/actions.ts:84-85 | the circle area is positive when the diameter is positive |
| Snacks.IsTriangle | src/app/actions.ts:92-94 | the semi-perimeter test holds exactly when the strict triangle inequality holds for all three pairings, and it forces every side to be positive |
| Snacks.HeronRadicand | src/app/actions.ts:92-95 | the quantity under the square root is positive for every triple that passes the triangle test |
| Snacks.HeronArea | src/app/actions.ts:95 | with a square root that is positive on positive input, a valid triangle has a positive area |
| SnackDimensions.OrElse | src/ai/flows/snack-dimensions.ts:149 | `s || fallback` gives `s` when it is a non-empty string, and the fallback otherwise |
| SnackDimensions.NormalisedInclination | src/ai/flows/snack-dimensions.ts:128-130 | the inclination always ends in [-90, 90]; an in-range value is kept, and a null or out-of-range value becomes 0 |
| SnackDimensions.Clean | src/ai/flows/snack-dimensions.ts:95-155 | the result is either the canonical failure record (unknown type, seven null dimensions, non-empty error) or a per-type success record; a truthy model error is passed through unchanged; success happens exactly when there is no truthy error and the type's dimensions are present and positive; a success keeps the type and the measured values; an unknown type gives "The model could not identify the snack." |
| SnackDimensions.DimensionsFlow | src/ai/flows/snack-dimensions.ts:77-171 | every result is a failure record or a success record; any result with an error is a failure record; no output gives the no-output message; a thrown value gives "Could not analyze image: " followed by its message |
| SnackDimensions.CleanIdempotent | src/ai/flows/snack-dimensions.ts:110-155 | cleaning a cleaned record returns it unchanged |
| SnackDimensions.FlowIdempotent | src/ai/flows/snack-dimensions.ts:77-171 | cleaning the flow's output again changes nothing |
| SnackDimensions.SnackDimensionsFlow | src/ai/flows/snack-dimensions.ts:77-171 | the flow as written, with in-place field updates and early returns, returns exactly the specified record |
| SessionStore.OfType | src/app/actions.ts:35 | the filter holds exactly the stored snacks of the type, and it is no longer than the store |
| SessionStore.Reduce | src/app/actions.ts:39 | the fold returns a member of the list whose area is at least that of every member |
| SessionStore.ReduceKeepsLastMaximum | src/app/actions.ts:39 | the fold's result is the last element of maximal area: every later element is strictly smaller |
| SessionStore.LargestSnack | src/app/actions.ts:34-40 | none exactly when no stored snack has the type; otherwise a stored snack of that type whose area is at least that of every snack of the type |
| SessionStore.GetWinners | src/app/actions.ts:45-49 | each winner is none exactly when no stored snack has its type; otherwise it is a stored snack of that type, and no stored snack of the type is larger |
| SessionStore.IsNewRecord | src/app/actions.ts:115-116 | the first snack of a type is always a record; an area equal to a stored snack's area of the same type is never a record |
| SessionStore.NewRecordIffBeatsAll | src/app/actions.ts:115-116 | a new record is one strictly larger than every stored snack of its type, so a tie is not a record |
| SessionStore.OfTypeAppend | src/app/actions.ts:35 | storing a snack appends it to the filter of its own type and leaves every other type's filter unchanged |
| SessionStore.LargestAfterAppend | src/app/actions.ts:34-40 | after a snack is stored, the other types' largest are unchanged; its own type's largest becomes the new snack unless the old one is strictly larger |
| SessionStore.WinnerOfIsLargest | src/app/actions.ts:45-49 | each winner field of the snapshot is the largest snack of that type |
| SessionStore.WinnersAfterAppend | src/app/actions.ts:132-141 | after a snack is stored, the other two winners are unchanged; the snack is its type's winner exactly when its area is at least the previous record, in particular when it is a new record |
| SessionStore.CommentaryRequest | src/app/actions.ts:118-122 | the request carries the type and the new area; its previous-largest field bounds every stored area of the type and is attained when such a snack exists; with positive stored areas it is 0 exactly when there is no snack of the type |
| SessionStore.IncludesIffOccurs | src/app/actions.ts:148 | `includes` is true exactly when the substring occurs at some index |
| SessionStore.Includes | src/app/actions.ts:148 | `includes` is false when the substring is longer than the string, and true when the string starts with it (IncludesIffOccurs gives the full characterisation) |
| SessionStore.CaughtMessage | src/app/actions.ts:144-159 | an Error mentioning 429 gives the quota message; any other Error passes its message through; anything else gives the unknown-error message; the result always starts with "Could not analyze snack image at this time: " |
| SessionStore.Measure | src/app/actions.ts:83-104 | the triangle error occurs exactly for a samoosa whose sides are all non-null and non-zero but fail the triangle test; no area is computed exactly when no type branch applies; a computed area is positive given a positive square root |
| SessionStore.ComputeArea | src/app/actions.ts:83-104 | the area computation as written, with `area` reassigned per branch and an early exit for an invalid triangle, gives the specified measurement |
| SessionStore.ErrorResult | src/app/actions.ts:51-66 | the shared failure result carries the given error and winners; with a non-empty error it is a failure: the canonical unknown record, no area, no commentary, no snack, no record |
| SessionStore.EchoResult | src/app/actions.ts:97-112 | the geometry failure result echoes the classifier's record with only its error replaced; it carries the given winners; with a non-empty error it is a failure |
| SessionStore.AnalyzeMeasured | src/app/actions.ts:115-142 | the commentary stage, once an area is known, either stores one snack with that area and the detected type or fails without touching the store |
| SessionStore.AnalyzeClassified | src/app/actions.ts:75-142 | every exit after classification satisfies the result contract: a winners snapshot of the store afterwards; a failure has an error, no snack, no area, no record flag and an unchanged store; a success stores exactly the returned snack, with the returned positive area, the detected type, a record flag computed against the old store, and commentary |
| SessionStore.Analyze | src/app/actions.ts:42-161 | malformed input gives "Invalid input provided." with the store unchanged; every other input satisfies the result contract above |
| SessionStore.AnalyzeKeepsAreasPositive | src/app/actions.ts:106-113 | the check before storing means every stored area stays positive |
| SessionStore.AppendKeepsPositive | src/app/actions.ts:132 | pushing a snack of positive area keeps all stored areas positive |
| SessionStore.GeometryErrors | src/app/actions.ts:89-113 | an invalid triangle gives the triangle message with the dimensions echoed and the store unchanged; missing dimensions of a known type give the missing-dimensions message; once an area is measured, the only possible error is the caught one |
| SessionStore.CaughtExceptions | src/app/actions.ts:144-160 | a classifier that throws, or a commentator that throws after a positive measurement, ends in the caught message, with nothing stored |
| SessionStore.ClassifierErrors | src/app/actions.ts:75-80 | a classifier answer with a truthy error, or of unknown type, ends in that error, or "Aalae patttikunno? he?" when the error is empty; nothing is stored |
| SessionStore.SuccessEchoes | src/app/actions.ts:134-142 | a success echoes the classifier's record with the error cleared, the area that was measured, and the comment returned for the request built from the store before |
| SessionStore.ParippuvadaScenario | src/app/actions.ts:42-142 | starting from an empty store, a parippuvada of diameter 10 is a new record and the winner; a second one of diameter 8 is not a record, the first stays the winner, and the store holds two snacks |
| SessionStore.CleanedClassifierOutputIsMeasurable | src/app/actions.ts:83-113 | a record that went through the dimension flow and names a known type always reaches an area computation, never the missing-dimensions exit |
| SessionStore.SnackSession.constructor | src/app/actions.ts:14 | the session starts with an empty list of snacks |
| SessionStore.SnackSession.AnalyzeAndCompareSnack | src/app/actions.ts:42-161 | the action as written: the result and the new `sessionSnacks` are exactly those of `Analyze` on the old list, and stored areas stay positive |
| Leaderboard.InitialLeaderboardValid | src/components/snack-analyzer.tsx:33-39 | the initial board has five entries in non-increasing order of area |
| Leaderboard.Insert | src/components/snack-analyzer.tsx:60 | one stable insertion step adds exactly the new entry to the board's multiset |
| Leaderboard.InsertSorted | src/components/snack-analyzer.tsx:60 | inserting into a sorted board keeps it sorted |
| Leaderboard.SortDesc | src/components/snack-analyzer.tsx:60 | the sort is a permutation of its input |
| Leaderboard.SortDescSorted | src/components/snack-analyzer.tsx:60 | the sort's output is in non-increasing order of area |
| Leaderboard.InsertAtEnd | src/components/snack-analyzer.tsx:60 | an entry no larger than every entry goes last, so ties keep their order |
| Leaderboard.SortDescOfSorted | src/components/snack-analyzer.tsx:60 | a sorted board comes out of the sort unchanged |
| Leaderboard.InsertWithin | src/components/snack-analyzer.tsx:60 | an entry larger than the n-th entry is placed among the first n |
| Leaderboard.CutKeepsLargest | src/components/snack-analyzer.tsx:61 | cutting a sorted board never drops an entry larger than one it keeps |
| Leaderboard.UpdatedLeaderboard | src/components/snack-analyzer.tsx:57-63 | the new board is sorted and has min(5, n+1) entries; it is a sub-multiset of the old board plus the new entry, and no dropped entry is larger than a kept one (the top min(5, n+1)); every entry is old or new; the new entry is kept when the old board had fewer than 5 entries |
| Leaderboard.UpdateIsBoundedInsert | src/components/snack-analyzer.tsx:59-61 | on a sorted board the update is one stable insertion followed by the cut |
| Leaderboard.NoEntryBelowFifth | src/components/snack-analyzer.tsx:59-61 | a full sorted board whose fifth entry is at least the new area stays exactly as it was, so a tie with fifth place does not enter |
| Leaderboard.LargerEntryEnters | src/components/snack-analyzer.tsx:59-61 | an entry strictly larger than the fifth of a full sorted board gets onto the board |
| Leaderboard.UpdatePreservesInvariant | src/components/snack-analyzer.tsx:57-63 | the update preserves "sorted, at most five entries" |
| Leaderboard.FirstOfKind | src/components/snack-analyzer.tsx:106-107 | `find` returns none exactly when no entry has the type; otherwise an entry of that type with no entry of that type before it |
| Leaderboard.FirstOfSortedIsLargest | src/components/snack-analyzer.tsx:105-107 | on a sorted board the first entry of a type is that type's largest |
| Leaderboard.ChartFor | src/components/snack-analyzer.tsx:105-117 | at most two bars, parippuvada before vazhaikkapam; a type has a bar exactly when the board holds an entry of it, and the bar shows the area of that type's first entry |
| Leaderboard.ChartShowsLargest | src/components/snack-analyzer.tsx:105-117 | on a sorted board each bar shows an area the board holds for that type, and no entry of the type is larger |
| Leaderboard.DimensionsResult | src/components/snack-analyzer.tsx:84-99 | a result exists exactly for a parippuvada with a positive diameter or a vazhaikkapam with positive length and width; it has the record's type, a positive area from the matching formula and the measured values |
| Leaderboard.SnackAnalyzer.constructor | src/components/snack-analyzer.tsx:50-55 | the component starts with the initial board, no result, and the chart of the initial board |
| Leaderboard.SnackAnalyzer.RefreshChart | src/components/snack-analyzer.tsx:105-117 | the effect, building the bars by pushes, sets the chart to the specified chart of the current board and changes nothing else |
| Leaderboard.SnackAnalyzer.UpdateLeaderboard | src/components/snack-analyzer.tsx:57-63 | the board becomes the updated board, and the invariant holds |
| Leaderboard.SnackAnalyzer.HandleAreaCheck | src/components/snack-analyzer.tsx:65-82 | a non-positive area leaves the board and chart unchanged; otherwise the snack enters as "Your <type>" |
| Leaderboard.SnackAnalyzer.HandleDimensionsUpdate | src/components/snack-analyzer.tsx:84-103 | the result card is set to the derived result; without a result the board is unchanged; with one, the snack enters the board with its area |

## Left out

- The language-model prompts are not modelled: the dimension prompt, the commentary flow and the expert-badge flow. Their outcomes are parameters: a record, nothing, or a thrown value.
- `checkSnackExpert`, the expert badge, the toast and `useTransition` in `handleAreaCheck` are left out. They are an asynchronous external call that touches neither the board nor the result card.
- Floating point is not modelled. Areas are reals. `Math.PI` is the literal closest to pi, and `Math.sqrt` is an abstract function.
- Snacks.HeronArea: positivity is proved only for a square root that is positive on positive input, because `Math.sqrt` is not modelled.
- SessionStore.Measure: a samoosa area is proved positive only under the same assumption on the square root.
- NaN and infinities are not modelled. Neither is the exact rounding of `(d / 2) ** 2` next to the ellipse product, or `toFixed` in the display.
- Request validation (zod `safeParse`) is modelled as a payload that is either a string `imageData` or malformed.
- The timestamp id is a parameter. The image data is an opaque string. `console.error` logging is left out.
- Concurrency is not modelled: the awaits between reading the record and storing, and stale React state. Each call is atomic.
- `!dimensionsResult.snackType` cannot be true: the snack type is a four-valued enumeration here, so that test is absent.
- The result type of the action is modelled as the dimension record (whose `error` field is the result's error) next to the analysis fields, rather than as one flattened object.
- The server action stores samoosas. The client board and chart only know parippuvada and vazhaikkapam, as the source does.
- Rendering is not modelled: the components, the chart configuration, the perimeter shown on the result card, the camera upload and snack-calculator.tsx.
