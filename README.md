# scanfrog in Dafny

scanfrog turns the vulnerabilities that Grype finds in a container image
into a Frogger-style terminal game: each vulnerability becomes one
obstacle on one of eight road lanes, sized and sped up by its severity,
and the player steers a frog from the bottom row to the finish line on
row 0. A hit ends the game with a message naming the vulnerability; an
empty report gives a decorated game with nothing to dodge. The end
screens can restart the game from the vulnerabilities already loaded.

This project models the game session and the pure part of the Grype
runner, and proves what they promise:

- `wrappers.dfy` (module `Wrappers`): `Option` and `Result`.
- `grype.dfy` (module `Grype`): the vulnerability record, the decoded
  shape of Grype's JSON report, `parseGrypeOutput` from the decoded report
  on, and `validateImageName`, whose regular expression is given both as a
  declarative language (`RegexMatches`) and as a decision procedure
  (`FormatOk`) proved equal to it.
- `game_model.dfy` (module `GameModel`): the game's phases, entities, the
  `Model` record, the events and commands of the event loop, and `NewModel`.
- `game_rules.dfy` (module `GameRules`): the expression-level rules of
  `update.go`: keys and frog steps, obstacle classes, the lane layout,
  obstacle and decoration placement, the screen wrap, collisions and the
  collision message.
- `game_engine.dfy` (module `GameEngine`): the state transitions
  (`Update`, `handleKeyPress`, `startGame`, `generateObstacles`,
  `initializeDecorativeItems`, `updateGame`, `restartGame`) as methods
  that build the new model step by step, each proved equal to a
  specification function, and the lemmas that state what a session keeps
  and how it can end.
- `game_scenarios.dfy` (module `GameScenarios`): whole sessions driven
  through `Update`.

`Update`, `handleKeyPress`, `startGame`, `updateGame` and `restartGame`
take the model by value, change the copy and return it, so `Model` is a
datatype and each of these transitions returns the new record.
`NewModel` returns a pointer, and `generateObstacles` and
`initializeDecorativeItems` take one and update the model's fields in
place; no other reference to that model is held while they run, so they
are modelled the same way, as methods that return the updated record.
The Go slices that `updateGame` changes in place are sequences that the
method rebuilds.

Obstacle placement uses float64 values that are all multiples of 0.5
(indices times 8, 12 or 20, lane offsets of 2, jitter steps of 0.5), so
they are exact in float64 and are held as integers counting half cells;
`math.Mod` on them is Go's integer remainder. When every lane would get
fewer than one obstacle the belt length is 0, `math.Mod` yields NaN and
Go's `int(NaN)` is implementation-dependent; the model uses the value
amd64 produces (`GameRules.NaNAsInt`).

The physics of a tick depends on wall-clock time and float accumulation.
A tick event therefore carries two functions: the truncated column each
obstacle reaches by moving (`Motion`), and the truncated position each
decorative item floats to (`Drift`). The screen wrap, the collision scan
and everything after them are modelled exactly.

## Model

| member | source | states |
|---|---|---|
| `Grype.EntryScore` | internal/grype/runner.go:126-129 | an entry's score is its top-level score, or the nested metrics score when the top-level one is 0 and the nested one positive |
| `Grype.HighestScore` | internal/grype/runner.go:123-133 | the score kept for a match is at least every entry's score, is one of them or 0, and is 0 exactly when no entry offers a positive score |
| `Grype.ParseGrypeOutput` | internal/grype/runner.go:108-139 | a decoding error comes back with the "failed to parse JSON: " prefix; otherwise there is one record per match, in order, with id, severity, package, description and the highest score |
| `Grype.ValidateImageName` | internal/grype/runner.go:142-166 | an empty name is refused first; otherwise a name with any of the 16 shell metacharacters is refused, naming one it contains; otherwise the name is refused exactly when it is outside the image-name regular expression |
| `Grype.ErrorText` | internal/grype/runner.go:142-166 | every refusal message starts "image name ", and the one for a refused character ends with that character |
| `Grype.ErrorTextIdentifiesError` | internal/grype/runner.go:142-166 | two refusals with the same message are the same refusal, so the message tells the caller which check failed and which character |
| `Grype.FormatOkMatchesRegex` | internal/grype/runner.go:160-163 | every name the first-'@' decision accepts is in the regular expression's language |
| `Grype.RegexMatchesFormatOk` | internal/grype/runner.go:160-163 | every name in the regular expression's language is accepted by the first-'@' decision |
| `Grype.FormatOkIffRegex` | internal/grype/runner.go:160-163 | the decision procedure and the regular expression accept the same names |
| `Grype.FormatOkExcludesDangerous` | internal/grype/runner.go:148-163 | no name the regular expression accepts contains a shell metacharacter, so the format check alone already rules them out |
| `Grype.AcceptedNamesAreSafe` | internal/grype/runner.go:142-166 | a name in the regular expression's language passes every earlier check: it is non-empty and free of metacharacters |
| `GameModel.NewModel` | internal/game/model.go:95-112 | a new session is loading on an 80x24 screen with nothing on the field; a scanner source sets the image and the loading message "Building obstacle course from <image>..."; any other source gets "Building obstacle course..." |
| `GameRules.Quot` | internal/game/update.go:84 | Go's integer division truncates toward zero: quotient times divisor plus Go's remainder is the dividend, and for non-negative operands it is ordinary division |
| `GameRules.Rem` | internal/game/update.go:228-231 | the remainder has the dividend's sign, is smaller in size than the divisor, and differs from the dividend by a multiple of the divisor |
| `GameRules.KeyDirection` | internal/game/update.go:34-65 | up/w move up, down/s down, left/a left, right/d right, and every other key is no move; movement keys are distinct from the quit and restart keys |
| `GameRules.Step` | internal/game/update.go:34-65 | a step goes to the neighbouring cell exactly when that cell is within the bound on the side the step goes to, and otherwise stays; a frog on the field stays on it |
| `GameRules.StepMovesOneCell` | internal/game/update.go:34-65 | a step changes one coordinate by one, or nothing |
| `GameRules.ObstacleProperties` | internal/game/update.go:140-181 | obstacles are 1 or 2 cells wide, 2 exactly for trucks and bosses; bosses go at 1.5 times lane speed, trucks at 1.2, cars at 1.3, 1.0 or 0.8; with a positive score a boss is 9 or more, a truck 7 to 9, a 1.3 car 4 to 7 and a 1.0 car below 4; without one, the labels Critical, High, Medium and Negligible give a boss, a truck, a 1.3 car and a 0.8 car, and any other label a 1.0 car |
| `GameRules.SeverityTableExamples` | internal/game/update.go:140-181 | a 9.5 score is a boss whatever its label, unscored Critical is a boss, unscored Medium a 1.3 car, unscored Negligible a 0.8 car, and a 7.2 score a truck |
| `GameRules.ScoreOverridesLabel` | internal/game/update.go:147-161 | with a positive score the label plays no part |
| `GameRules.ClassGrowsWithScore` | internal/game/update.go:147-161 | a higher score never gives a narrower or lower-class obstacle |
| `GameRules.FallbackLabel` | internal/game/update.go:354-367 | the fallback label is Critical from 9, High from 7 below 9, Medium from 4 below 7, and Low below 4, including a missing (zero) score |
| `GameRules.FallbackLabelMatchesScoreClass` | internal/game/update.go:354-367 | the label derived from a positive score selects the same obstacle as the score itself |
| `GameRules.LaneLayoutShape` | internal/game/movement_test.go:406-467 | lanes sit exactly on the even rows 4 to 18, the bottom lane moves right, directions alternate, speeds are positive |
| `GameRules.NoTwoFreeRowsBelowTopRoad` | internal/game/movement_test.go:372-403 | from row 19 up to row 4 no two adjacent rows are both free of road |
| `GameRules.Spacing` | internal/game/update.go:204-213 | obstacles are spaced 8, 12 or 20 cells apart |
| `GameRules.SpacingShrinksWithCount` | internal/game/update.go:204-213 | more vulnerabilities never mean wider spacing |
| `GameRules.LoopHalves` | internal/game/update.go:227 | the belt length is non-negative, and positive exactly when each lane receives at least one obstacle |
| `GameRules.BeltSlot` | internal/game/update.go:222-231 | on a non-empty belt the wrapped position lies in [0, belt length); on an empty belt it is NaN |
| `GameRules.StartWithinBelt` | internal/game/update.go:233-241 | on a non-empty belt an obstacle starts within half a belt either side of the left edge, or of the right edge for left-moving lanes |
| `GameRules.ObstacleField` | internal/game/update.go:183-256 | one obstacle per vulnerability, spread round robin over the lanes, carrying its vulnerability's id, score and label and its class's width; none without lanes |
| `GameRules.ObstacleSpeedFollowsLane` | internal/game/update.go:250 | every obstacle moves in its lane's direction and never stands still |
| `GameRules.DecorativeLayout` | internal/game/update.go:392-420 | twelve items, each on a row between the finish line and the bottom row, within a column of the screen, and never on the frog's row within two columns of it |
| `GameRules.WrapX` | internal/game/update.go:270-277 | a position within the margins is kept, one past the left margin reappears at the right margin, one past the right margin reappears at the left margin, and any position ends within them |
| `GameRules.WrapIdempotent` | internal/game/update.go:270-277 | wrapping a wrapped position changes nothing |
| `GameRules.Advanced` | internal/game/update.go:264-278 | a tick changes only the obstacles' columns, each to the wrap of the column it moved to, and leaves each within the wrap margins |
| `GameRules.Floated` | internal/game/update.go:281-300 | a tick changes only the decorative items' positions; an item more than two columns past the right edge re-enters at column -2, and every other item keeps the column it drifted to |
| `GameRules.CheckCollision` | internal/game/update.go:317-324 | a hit is exactly the frog standing on one of the cells the obstacle covers |
| `GameRules.FirstCollision` | internal/game/update.go:303-312 | the index found is the first obstacle in list order that hits the frog; none is found exactly when none hits |
| `GameRules.VulnerabilityUrl` | internal/game/update.go:327-337 | a CVE- id links to the NVD detail page for it, a GHSA- id to its GitHub advisory page, and any other id has no link |
| `GameRules.SeverityLabel` | internal/game/update.go:354-367 | the label shown is the obstacle's own label when it has one, and otherwise the label its score falls in (Critical from 9, High from 7, Medium from 4, else Low) |
| `GameRules.FormatCollisionMessageParts` | internal/game/update.go:352-390 | the message names the obstacle's id, linked to its advisory page exactly when it has one, shows the severity label `SeverityLabel` gives, and shows the obstacle's own score exactly when it is positive |
| `GameRules.CollisionMessageExamples` | internal/game/model_test.go:130-196 | a labelled CVE with score 8.5, the same without a score (no score shown), an unlabelled 9.5 shown as Critical, and a GHSA id linked to its advisory |
| `GameEngine.HandleKeyPress` | internal/game/update.go:14-75 | a key press has the effect `KeyResult` describes |
| `GameEngine.StartGame` | internal/game/update.go:77-128 | starting play gives the model `Started` describes: the lane layout, the obstacle field, the frog at its start and, for an empty report, the decoration |
| `GameEngine.GenerateObstacles` | internal/game/update.go:183-256 | the obstacle list built one vulnerability at a time is the obstacle field |
| `GameEngine.InitializeDecorativeItems` | internal/game/update.go:392-420 | the items built one at a time are the decorative layout |
| `GameEngine.MoveObstacles` | internal/game/update.go:264-278 | the loop that moves each obstacle to its new column and wraps it at the margins builds exactly the `Advanced` obstacles |
| `GameEngine.FloatItems` | internal/game/update.go:281-300 | the loop that floats each decorative item and returns it at column -2 past the right edge builds exactly the `Floated` items |
| `GameEngine.UpdateGame` | internal/game/update.go:258-315 | a tick moves and wraps every obstacle, floats the decoration of an empty game, and ends the game at the first obstacle that covers the frog |
| `GameEngine.RestartGame` | internal/game/model.go:204-217 | a restart clears the collision, move flag and decoration and starts play again on the cached vulnerabilities |
| `GameEngine.Update` | internal/game/model.go:124-158 | every event has the effect `Updated` describes: resizes only to positive sizes, loads cache and start play, load errors end the game and quit, ticks advance only a game in play |
| `GameEngine.NewModelConsistent` | internal/game/model.go:95-112 | a new session satisfies the session invariant |
| `GameEngine.StartedConsistent` | internal/game/update.go:77-128 | starting play on a positive screen satisfies the session invariant |
| `GameEngine.TickedConsistent` | internal/game/update.go:258-315 | a tick keeps the session invariant |
| `GameEngine.UpdatePreservesConsistent` | internal/game/model.go:124-158 | every event keeps the session invariant: positive screen, obstacles 1-2 cells wide on road lanes, frog within the rows and never on the finish line during play |
| `GameEngine.QuitKeyQuits` | internal/game/update.go:14-30 | q, esc and ctrl+c quit in every phase and change nothing |
| `GameEngine.IdleKeysChangeNothing` | internal/game/update.go:15-72 | outside play only quit keys and, on an end screen, restart keys act; in play a key that neither moves nor quits leaves the model as it is |
| `GameEngine.StartIsSafe` | internal/game/update.go:83-113 | no obstacle covers the frog when play starts |
| `GameEngine.KeyMovesFrogOneCell` | internal/game/update.go:34-72 | in play a key moves the frog by at most one cell, keeps it on the screen, wins exactly on row 0 and marks the first move |
| `GameEngine.VictoryOnlyAtFinishLine` | internal/game/update.go:68-72 | victory comes only from play, through a key, with the frog on row 0 |
| `GameEngine.GameOverCause` | internal/game/model.go:124-158 | defeat comes only from a failed load, which quits with the error message, or from a tick in which a listed obstacle covers the frog, which the message then names |
| `GameEngine.TickEndsGameIffHit` | internal/game/update.go:303-312 | a tick ends the game exactly when some moved obstacle covers the frog |
| `GameEngine.TerminalStatesHold` | internal/game/update.go:15-26 | the end screens are left only for play, by a restart key or a fresh load, or stay in defeat on a failed load |
| `GameEngine.UpdateKeepsCache` | internal/game/model.go:137-139 | only a load replaces the cached vulnerabilities |
| `GameEngine.RestartReproducesLoad` | internal/game/model.go:204-217 | a restart on an unchanged screen rebuilds the lanes, obstacles and frog start the load built |
| `GameEngine.ZeroVulnerabilitiesDecorate` | internal/game/update.go:118-122 | an empty report gives a decorated game with twelve items and no obstacles, and a restart decorates exactly when the cached report is empty |
| `GameScenarios.ClimbToFinish` | internal/game/movement_test.go:599-646 | nineteen "up" presses from the start row visit every row from 19 to 0 once and win |
| `GameScenarios.LoadPlayRestart` | internal/game/model.go:204-217 | after a load and any play without loads or resizes, enter on an end screen rebuilds the loaded course, and the session invariant holds throughout |

## Left out

- Rendering (`View` and internal/game/render.go), the command-line and SSH front ends (cmd/scanfrog), and the terminal library's event loop: they only display or deliver what the model computes.
- `ScannerSource.GetVulnerabilities` and `FileSource.GetVulnerabilities`: they run the scanner or read a file; their output enters the model as a load event or a load error.
- JSON decoding in `parseGrypeOutput`: `ParseGrypeOutput` takes the result of `json.Unmarshal` as its input.
- `Init`, `tick` and `loadVulnerabilities`: they only schedule commands; the model returns which command (`TickCmd`, `QuitCmd`, none) a transition hands back.
- Timestamps: `gameStartTime` and `firstMoveTime` are written but never read; `lastUpdate` only feeds a tick's elapsed time, which the `Motion` and `Drift` functions a tick carries replace.
- Float physics of a tick (`floatX`, `floatY`, speed times elapsed time, the sine bobbing): abstracted as the `Motion` and `Drift` functions a tick carries.
- `GameRules.NaNAsInt`: Go leaves `int(NaN)` implementation-dependent; the amd64 value is used.
- `GameRules.FormatCollisionMessageParts`: the hyperlink escape sequence of termlink and the `%.1f` rendering of the score are not modelled; the parts keep the id, the link target, the label and the score as values.
- `GameEngine.UpdateGame`: Go's `updateGame` writes the moved obstacles into the slice it shares with the caller's model; the model returns new sequences instead, so that aliasing is not captured.
- The glyph strings of the decoration: they are rendering; the model keeps their order as the `Symbol` enumeration.
