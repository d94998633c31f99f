# A verified model of the canvas page's widgets, input dispatch and quiz

`script.js` draws a single-page site on one canvas. The top bar has two
tabs, "Reading" and "Game", and a credits column. The reading tab shows a
scrolling text. The game tab runs a quiz: the visitor answers with one of
four buttons, drops a heap of labelled physics balls, and scores by the
balls that land in the game ball.

This project models the interaction core of that script and proves what
it promises:

- the `#rrggbb` colour codec and the saturating colour steps;
- the `TextBox` interaction state machine (hover, press, release, click,
  `deToggle`), with its `onClick`/`onSetToggled` hooks recorded in call
  order;
- the layout containers `Control`, `VBoxContainer` and `HBoxContainer`;
- input dispatch over the drawn items: `storePressed`, `handleClicked`,
  `handleHovered` and `input`, including the scroll clamp;
- the quiz: `askNextQuestion`, `checkAnswer`, `checkGameBall` and the
  continuation it schedules, and the hooks the set-up code gives each box,
  which keep the two tabs mutually exclusive.

Modules:

- `Wrappers`: `Option`.
- `Colour`: `hexToRGB`/`RGBToHex` on a channel triple, and the ±50/±25 steps.
- `Scrolling`: the wheel clamp.
- `Layout`: the slot arithmetic of the two box containers, on `real`.
- `Widgets`: `Vector2`, `TextBox`, `Control`, the scene tree, and the
  three walks `storePressed`, `handleClicked`'s items and `handleHovered`.
- `Quiz`: the question data, the ball labels, the score loop, and the game
  ball's text.
- `Game`: the module-level variables as a `Session` record, and what each
  callback does to them.
- `Script`: the page as a class `Page`. It holds the widgets the set-up
  code creates, the mouse state, `pressedItems`, the `Session`, and two
  ghost traces: the `isReleased`/`isClicked` calls `handleClicked` makes
  (`dispatched`) and the hooks that ran (`hooks`).

Each box carries a `role` that says which `onClick`/`onSetToggled` pair the
set-up code gave it. `Page.Valid` ties each role to the named box and holds
the invariants between events:

- the tabs exclude each other;
- the reading and the game follow their tabs;
- no answer button and no drop button shows outside a game;
- the scroll offset is within its bounds.

Every event method promises to keep these invariants.

Several things are parameters rather than computed:

- the canvas size;
- the height the reading lines take (`readingHeight`), since it comes from
  `measureText`;
- the set of balls that overlap the game ball (`hits`), since the overlap
  test is `Math.sqrt`-based physics;
- whether the balls have risen far enough to show the drop button
  (`gathered`).

## Model

| member | source | states |
|---|---|---|
| Colour.RgbToHex | script.js:368-374 | The result is always `#` and six lowercase hex digits. |
| Colour.RgbToHexAsWritten | script.js:368-374 | `RgbToHex` equals `#` followed by `toString(16).padStart(2, '0')` of each channel, in order. |
| Colour.ChannelToHexPads | script.js:370-372 | `c.toString(16).padStart(2, '0')` is exactly the two-digit code of a channel below 256. |
| Colour.ToHexString | script.js:370-372 | `n.toString(16)` is a non-empty string of lowercase hex digits, one digit long exactly when `n < 16`. |
| Colour.PadStart | script.js:370-372 | `padStart` yields length `max(len, \|s\|)`, ends with `s`, and is `fill` before it. |
| Colour.HexToRgb | script.js:360-366 | It yields a triple exactly when characters 1-6 are hex digits, in either case; character 0 is skipped. |
| Colour.ParseChannel | script.js:362-364 | A two-character slice parses exactly when both characters are hex digits. |
| Colour.Slice | script.js:362-364 | `slice` with in-range bounds is the subsequence; it is never longer than the string. |
| Colour.HexToRgbOfRgbToHex | script.js:360-374 | Writing a triple and reading it back gives the same triple. |
| Colour.RgbToHexOfHexToRgb | script.js:360-374 | Every lowercase `#rrggbb` string reads and writes back to itself. |
| Colour.Up | script.js:179-181 | A channel step up never falls and is either `c + step` or 255, so it never wraps. |
| Colour.Down | script.js:193-195 | A channel step down never rises and is either `c - step` or 0, so it never wraps. |
| Colour.Lighten | script.js:178-182 | No channel falls, and each rises by the step or stops at 255. |
| Colour.Darken | script.js:192-196 | No channel rises, and each falls by the step or stops at 0. |
| Colour.LightenSaturates | script.js:179-181 | Every channel of a lightened colour is `min(c + step, 255)`. |
| Colour.DarkenSaturates | script.js:193-195 | Every channel of a darkened colour is `max(c - step, 0)`. |
| Colour.Brighter | script.js:178-182 | Reading a code, lightening every channel and writing it back gives a code that reads as the lightened triple. |
| Colour.Dimmer | script.js:192-196 | The same, for darkening. |
| Colour.BrighterOfCode | script.js:178-182 | Stepping the code of a triple up is the code of the stepped triple. |
| Colour.DimmerOfCode | script.js:192-196 | The same, for stepping down. |
| Colour.BlackCode | script.js:136 | The literal `#000000` is the code of black and reads back as it. |
| Colour.ToggledOnCode | script.js:237 | The literal `#66ff66` is the code of the toggled-on colour and reads back as it. |
| Colour.ClickedOnColour | script.js:232-240 | A box that `isClicked` toggles on ends `#98ff98` (`#66ff66` then +50). |
| Colour.ClickedOffColour | script.js:232-240 | A box that `isClicked` toggles off ends `#323232` (`#000000` then +50). |
| Widgets.TextBox.BodyColor | script.js:136 | The body colour is always a canonical code, and it reads back as the triple the model keeps. |
| Widgets.TextBox.constructor | script.js:131-147 | A new box is black, shown, untoggled and unhovered, with the given position, size and text. |
| Widgets.TextBox.ContainsPoint | script.js:164-169 | A box of negative width or height contains no point. |
| Widgets.EdgesInclusive | script.js:164-169 | `containsPoint` includes all four edges: both corners are inside, points just past an edge are not. |
| Widgets.TextBox.IsEntered | script.js:171-183 | A shown box becomes hovered and +50 on every channel, saturating. A hidden box is unchanged. |
| Widgets.TextBox.IsExited | script.js:185-197 | A shown box stops being hovered and goes -50 on every channel, saturating. A hidden box is unchanged. |
| Widgets.TextBox.IsPressed | script.js:199-209 | A shown box goes -25 on every channel. Its hover and toggle are untouched, and a hidden box is unchanged. |
| Widgets.TextBox.IsReleased | script.js:211-225 | A shown toggled box goes +25; a shown untoggled one goes black; a hidden box is unchanged. |
| Widgets.TextBox.FlipAndHover | script.js:232-240 | The first half of `isClicked` on a shown box: the toggle flips, the box is painted `#66ff66` (now on) or black (now off), then lightened by the hover step, and marked hovered. |
| Widgets.Control.DrawFree | script.js:392-398 | Every child takes the container's visibility and origin. A box child changes nothing else. |
| Widgets.Control.DrawVertical | script.js:405-413 | Child `i` of `n > 0` that is a box or a control lands at `y + (H/n)·i`, at the container's `x`, as wide as the container, and `H/n` high less 1 for all but the last. A `TextItem` or `Ball` child still takes up its slot but is left alone. |
| Widgets.Control.DrawHorizontal | script.js:420-428 | The same rule along the x-axis, again only for children that are boxes or controls. Child heights are left as they were. |
| Layout.LengthsSum | script.js:405-428 | The slot lengths add up to the container's length less `n - 1`. |
| Layout.SlotsTile | script.js:405-428 | Each slot ends one unit before the next begins, and the last ends at the container's end. |
| Layout.SlotsOrdered | script.js:405-428 | In a container of non-negative length no slot starts before the origin, and slots come in order. |
| Widgets.UnderPointer | script.js:472-475 | The boxes under the pointer, in order: exactly the members of the list that contain the point. |
| Widgets.StorePressed | script.js:463-480 | Returns, in walk order, exactly the boxes of the forest that contain the pointer, shown or hidden. Controls are walked through without a test. Each hit box is pressed; a box that is hidden or not hit keeps every field. |
| Widgets.PressNode | script.js:463-480 | The same for one item of the walk: a box before its children, a container's children. |
| Widgets.HandleHovered | script.js:492-510 | Every box of the forest gets exactly the enter edge, the exit edge or nothing, as its hover and the pointer decide. Afterwards every shown box is hovered exactly when it contains the pointer, and text, visibility and toggle are unchanged. |
| Widgets.HoverNode | script.js:492-510 | The same for one item of the walk. |
| Widgets.FlattenAppend | script.js:463-510 | The walk order of a concatenated forest is the concatenation of the walk orders. |
| Scrolling.Limit | script.js:544 | The scroll limit is `max(readingHeight - canvas.height + originalTextYArr[0], 0)`. |
| Scrolling.ScrolledUp | script.js:537 | `scrollup` gives `min(y + 40, 0)`. |
| Scrolling.ScrolledDown | script.js:544 | `scrolldown` gives `max(y - 40, -limit)`. |
| Scrolling.ScrollStaysInBounds | script.js:533-546 | An offset in `[-limit, 0]` stays there after either wheel event. |
| Quiz.QuestionAt | script.js:719-724 | `questions[i]` is the i-th question, and nothing past the end. |
| Quiz.PromptText | script.js:738-745 | The prompt text is missing only for a question index past the end. |
| Quiz.BallCount | script.js:626-635 | `createBalls` makes 45 balls labelled 1 to 9, whose labels add up to 165. |
| Quiz.LabelRows | script.js:627-633 | The balls of rows `row` to 8 carry labels above `row` and at most 9. |
| Quiz.TallyBounds | script.js:781-788 | After a right answer the round's tally is between 0 and the sum of the labels. After a wrong answer it is between minus that sum and 0. |
| Quiz.TallyOfMisses | script.js:781-788 | Balls outside the game ball add nothing and are not collected. |
| Quiz.CollectedExactly | script.js:781-786 | Exactly the balls inside the game ball are collected, each once, in creation order. |
| Quiz.TallyRound | script.js:776-788 | The score loop: the ball's running total is the tally, the score is the starting number plus the tally, and the collected balls are `Collected`. |
| Quiz.NumberOfRender | script.js:789-793 | `Number` of the text the game ball is given reads back the tally it was written from, signed or not. |
| Quiz.DecimalRoundTrip | script.js:803 | `Number(String(n))` is `n` for every integer. |
| Game.InitialConsistent | script.js:448-454 | The variables as declared satisfy the between-events invariant. |
| Game.Asked | script.js:734-746 | During a game the prompt shows the current question, or the final score once all are answered. Nothing else changes, and outside a game nothing does. |
| Game.ReadingSet | script.js:560-566 | The reading follows the tab and the text scrolls to the top. Every other variable stays. |
| Game.GameSet | script.js:571-588 | The game starts over at question 0 when the tab is on and stops when it is off. The prompt and ball show with it, and the ball reads 0. |
| Game.Checked | script.js:748-769 | During a game `answerCorrect` records whether the letter is `correctAnswers[index]`, the prompt says "Correct!" or "Incorrect!", and the balls head for the middle. Outside a game nothing changes. |
| Game.Dropped | script.js:692-700 | The balls are released (target at the origin) and `checkGameBall` is scheduled. |
| Game.BallChecked | script.js:771-794 | During a game physics stops, the ball shows the round's signed change, and the continuation is scheduled with the old number plus the change. |
| Game.Finished | script.js:795-810 | During a game, physics resumes and the ball shows the score. The index moves on exactly when the answer was right, and the next question or the final score is asked. Outside a game nothing changes. |
| Game.Without | script.js:699 | Taking callback `k` off the list keeps the others in order. |
| Game.Fired | script.js:771-810 | Running any waiting callback keeps the between-events invariant. |
| Game.RoundOutcome | script.js:748-810 | One round (answer, drop, both timers) moves the index on exactly when the letter was right. The ball ends on the old number plus the signed labels collected, and the prompt asks the next question or shows the final score. |
| Game.WrongAnswerRepeats | script.js:748-810 | After a wrong answer the same question comes back. |
| Game.LeftoverPassesEnd | script.js:795-810 | A continuation run after a right answer, once every question is answered, moves the index past the end. The invariant still holds, the prompt has no text, and the game no longer counts as all answered. |
| Game.StoppedGameIgnoresTimers | script.js:771-798 | Once the game has stopped, a waiting callback only leaves the list. |
| Script.SceneBoxes | script.js:446 | The drawn items, walked depth first, hold the two tabs, the credits header and lines, the answer buttons column by column, and the drop button. |
| Script.BoxesDistinct | script.js:551-707 | No box occurs twice in that walk. |
| Script.TabsExclusive | script.js:556-588 | A click on either tab leaves at most one tab on, with the reading and the game following their tabs. |
| Script.ClickScroll | script.js:556-588 | A click sends the text back to the top exactly when it runs the reading tab's `onSetToggled`: a reading-tab click, or a game-tab click while the reading shows. Every other click leaves the offset alone. |
| Script.Page.constructor | script.js:551-715 | `init`'s set-up leaves the invariant holding, the variables as declared, and no press, no hook and no dispatch recorded. |
| Script.SetVisible | script.js:805-807 | Every box of the list ends with the given visibility. |
| Quiz.IsCorrect | script.js:752 | An answer is right only for a question that exists, and only with one of the four button letters. |
| Script.CreateUI | script.js:551-624 | The tabs "Reading (Do First)" and "Game" and the credits header are shown and untoggled; the seven credit lines, four text lines then three links, are distinct, hidden and untoggled. |
| Script.CreateGame | script.js:655-706 | The answer buttons A-D carry the letters a-d and start hidden and untoggled; the drop button "Drop!" starts hidden. |
| Script.Page.AskNextQuestion | script.js:734-746 | The variables become `Asked`, and once every question is answered all answer buttons are hidden. |
| Script.Page.ReadingToggled | script.js:560-566 | The reading tab's `onSetToggled` runs once and gives `ReadingSet` with the tab's toggle. |
| Script.Page.GameToggled | script.js:571-588 | The game tab's `onSetToggled` runs once, gives `GameSet`, shows the answer buttons exactly when the tab is on, and hides the drop button. |
| Script.Page.OnSetToggled | script.js:560-588 | `onSetToggled` runs once. Only the two tabs' version changes anything. |
| Script.Page.DeToggle | script.js:249-256 | On an untoggled box nothing changes and no hook runs. On a toggled box the toggle clears, the colour goes black, and `onSetToggled` runs exactly once; hover and visibility stay. |
| Script.Page.CheckAnswer | script.js:748-769 | The variables become `Checked`. During a game every answer button is hidden; outside one none is touched. |
| Script.Page.SideCalls | script.js:556-570 | The hooks a box's `onClick` sets off are at most one `onSetToggled`. |
| Script.Page.ReadingTabOnClick | script.js:556-559 | It detoggles the game tab (its hook runs only if it was on) and relabels the tab "Reading". |
| Script.Page.ReadingTabClicked | script.js:556-566 | The `onClick`, the game tab's hook if it was on, then its own `onSetToggled`, in that order. The tab flips and is painted. The variables are `ReadingSet` after `GameSet(false)` if needed, and the answer and drop buttons are hidden. |
| Script.Page.GameTabOnClick | script.js:568-570 | It detoggles the reading tab (its hook runs only if it was on). |
| Script.Page.GameTabClicked | script.js:568-588 | The `onClick`, the reading tab's hook if it was on, then its own `onSetToggled`. The tab flips and is painted. The variables are `GameSet` after `ReadingSet(false)` if needed, and the answer buttons follow the tab. |
| Script.Page.HeaderClicked | script.js:619-623 | Credits header: it flips and is painted, and every credit line shows exactly when the header is now toggled. The hooks run `onClick` then `onSetToggled`. |
| Script.Page.LinkClicked | script.js:600-611 | Source link: its own `deToggle` runs inside `onClick`, so the link ends untoggled. Its body color is hovered black if it was toggled, else black, and the hook order is recorded. |
| Script.Page.ChoiceOnClick | script.js:681-684 | `checkAnswer` with the button's letter, then `deToggle` on the button. |
| Script.Page.ChoiceClicked | script.js:681-684 | Answer button: the variables become `Checked` with its letter, all answer buttons end hidden, and the button ends untoggled. |
| Script.Page.DropClicked | script.js:692-700 | Drop button: it ends untoggled and hidden, the variables become `Dropped`, and the hook order is recorded. |
| Script.Page.PlainClicked | script.js:227-247 | Plain credit line: it flips and is painted, and the default hooks do nothing. |
| Script.Page.IsClicked | script.js:227-243 | A hidden box: status quo — no box, variable or hook changes. A shown box (`ClickOutcome`): the `onClick`, its side calls, then `onSetToggled`, in that order; the box is hovered and painted by its new toggle; the variables follow `AfterClick`. What is shown or hidden (`ClickShows`): the header's click makes every credit line follow its toggle; a tab hides the drop button and shows the answer buttons exactly when it is the game tab and now on; an answer hides every answer button; the drop button hides itself; every other visibility stays, and only the reading tab relabels itself. A tab's click detoggles the other tab, painting it black if it was on; its hover stays. The call is recorded. |
| Script.Page.TabClicked | script.js:556-588 | `IsClicked`'s outcome, visibility and other-tab promise on a shown tab. |
| Script.Page.ReadingTabOutcome | script.js:556-566 | What the reading tab's click leaves is `IsClicked`'s outcome for it: the hooks, toggle, colour and variables, the visibility, and the game tab cleared. |
| Script.Page.GameTabOutcome | script.js:568-588 | The same for the game tab, with the reading tab cleared. |
| Script.Page.ColumnClicked | script.js:591-624 | `IsClicked`'s outcome and visibility promise on a shown box of the credits column: the header, a text line or a source link. |
| Script.Page.GameButtonClicked | script.js:655-701 | `IsClicked`'s outcome and visibility promise on a shown answer button or the drop button. |
| Script.Page.ReleaseItem | script.js:484-487 | The item is released, then clicked iff it contains the pointer, and both calls are recorded. A hidden item changes nothing. A shown item the pointer has left takes only the release colour, and every other box is unchanged. A shown item under the pointer ends as `isClicked` leaves it (`ClickOutcome`: hooks in order, toggle, hover, colour, variables). |
| Script.BracketedBy | script.js:227-243 | The hooks a click runs start with the box's `onClick` and end with its `onSetToggled`, whatever its side calls. |
| Script.Page.ReleaseNext | script.js:483-488 | One turn of the loop: the calls recorded, a hidden item changing nothing, and for a shown item under the pointer its `onClick` first and its `onSetToggled` last among the new hooks. |
| Script.Page.ReleaseAll | script.js:483-488 | In order, each recorded item is released, then clicked iff it contains the pointer (the `Expected` list). When every recorded item is hidden, no box, variable or hook changes. When the one recorded item is shown and under the pointer, its `onClick` is the first new hook and its `onSetToggled` the last. |
| Script.Page.HandleClicked | script.js:482-490 | The same, and `pressedItems` is empty afterwards. |
| Script.Page.StorePressedItems | script.js:463-480 | `pressedItems` gets the boxes under the pointer appended, in walk order. Each shown one is pressed, and nothing else changes. |
| Script.Page.MouseDown | script.js:514-520 | The same, and the button is recorded as down and not up. |
| Script.Page.MouseUp | script.js:521-528 | `handleClicked`'s promise, and the button is recorded as up and not down. |
| Script.Page.Tap | script.js:514-528 | A press then a release at one point, with nothing recorded before. When every box under the pointer is hidden, no box, variable or hook changes, and `pressedItems` ends empty. |
| Script.Page.MouseMove | script.js:529-532 | `handleHovered`'s promise over the drawn items. |
| Script.Page.Input | script.js:512-549 | Per event kind: a press is `MouseDown`, a release `MouseUp`, a move `MouseMove`. The wheel moves the offset by `ScrolledUp`/`ScrolledDown`, keeping it in bounds and leaving boxes and the press state alone. Any other event changes nothing, and only a release runs hooks. |
| Script.Page.PointerMoved | script.js:876-879 | The `mousemove` listener: the pointer moves to the event's point and the hover edges fire for it. |
| Script.Page.Gather | script.js:815-824 | The drop button appears exactly when the balls are heading for a target other than the origin and have gathered, and stays if it was shown. |
| Script.Page.Fire | script.js:771-810 | Running waiting callback `k` gives `Fired`. After the scheduled continuation in a game, the answer buttons show unless every question is answered; otherwise none is touched. |
| Script.Page.ScoreRound | script.js:771-794 | The variables become `BallChecked`. |
| Script.Page.NextRound | script.js:795-810 | The variables become `Finished`. The answer buttons show again during a game, unless every question is answered. |

## Left out

- Colour.HexToRgb: returns `None` for any string whose characters 1-6 are not all hex digits, where `parseInt(_, 16)` would accept a leading sign or spaces, a one-digit slice, or a valid prefix (`"1g"` reads as 1) (script.js:362-364). Within the page every `bodyColor` is a canonical code (`Widgets.TextBox.BodyColor`), so those inputs do not arise.
- Quiz.QuestionAt: yields `None` past the end. The source instead stores `undefined` as the prompt's text (script.js:745), and `TextItem`'s sizing then fails on it (script.js:62, 88). In the source a continuation left from an earlier game runs within 1750 ms of a restart (script.js:699, 795), while the index is still low. The model's `Script.Page.Fire` places no deadline, so it can run such a leftover after the last question and move the index past the end (`Game.LeftoverPassesEnd`). The prompt then has no text, the answer buttons show again, and every later answer is wrong.
- Quiz.PromptText: `None` stands for that same `undefined` text. No error path is modelled beyond it.
- Script.Page.GameToggled: the balls' `gravityScale` and `textColor` writes, and the game ball's `textColor`, are not modelled (script.js:575-578, 586). They are physics and rendering state.
- Script.Page.DropClicked: the balls' `gravityScale` writes are not modelled (script.js:695-697).
- Script.Page.CheckAnswer: the balls' `gravityScale` writes are not modelled (script.js:766-768).
- Script.Page.ScoreRound: the `textColor` writes on the game ball and the collected balls are not modelled (script.js:779, 784). The overlap test `gameBall.isColliding(body)` is the parameter `hits`. Its collision-response side effects on the balls are not modelled (script.js:311-325).
- Script.Page.NextRound: the `textColor` writes on the collected balls and the game ball are not modelled (script.js:801, 804).
- Script.Page.Gather: models only the drop-button part of `process` (script.js:821-823). The exponential approach of the balls to the target is floating-point physics (script.js:815-820), and the test `maxHeight < canvas.height / 2 + 100` is the parameter `gathered`.
- Script.Page: widget positions are fixed at set-up. `process` re-centres the answer grid, the prompt, the drop button and the game ball on every frame (script.js:835-838). `loop` resizes the canvas to the window (script.js:860-861), and the canvas size here never changes after set-up.
- Script.Page: the per-frame `draw(drawnItems)` pass (script.js:431-438, 866), which runs each container's `draw`, is not run by the page. The hit tests read whatever positions the boxes hold. `Widgets.Control.DrawVertical` and `Widgets.Control.DrawHorizontal` state what such a pass leaves.
- Script.Page.Fire: any waiting callback may run next. The source runs them by deadline (1000 ms for `checkGameBall`, 750 ms for its continuation, script.js:699, 795), so the model allows every order the source allows and more. One of those extra orders runs a leftover continuation after the last question, and the index passes the end (`Game.LeftoverPassesEnd`).
- Widgets.Control.DrawVertical, Widgets.Control.DrawHorizontal: a `TextItem` or `Ball` child is left alone, where the source's `draw` also sets its position and size (script.js:405-428). These children still count towards `n`, so the other children land where the source puts them.
- Widgets.Control.DrawFree: items that dispatch skips (`TextItem`, `Ball`) are left alone, where `Control.draw` would also set their visibility and position (script.js:393-397). No plain `Control` of the page holds such an item.
- Script.Page.LinkClicked: `window.open(...).focus()` is left out; it is DOM wiring (script.js:601, 605, 609).
- Script.Page.IsClicked: that every other box keeps its toggle, colour and hover is stated by the `modifies` frame (`Repainted`), not by an `ensures`; what is shown or hidden is stated by `ClickShows`.
- Script.Page.ReleaseNext: of the click on a shown item under the pointer it promises only that the item's `onClick` is the first new hook and its `onSetToggled` the last. The full outcome (`ClickOutcome`, with toggle, colour, hover and variables) is promised one level down, by `Script.Page.ReleaseItem`. Carrying it through the loop puts the loop's proof beyond the verifier's resource budget.
- Script.Page.ReleaseAll: the same. The hooks bracket is carried only for a single recorded item. With several items the loop states the calls made (`Expected`) and the all-hidden case, not each click's effect.
- Script.Page.HandleClicked: the same as `Script.Page.ReleaseAll`.
- Script.Page.MouseUp: the same as `Script.Page.ReleaseAll`.
- Script.Page.PointerMoved: the hover walk runs before the pointer position is written. The source writes `mousePos` first (script.js:877-878), but the walk reads only the point it is given, so the outcome is the same.
- Script.Page.Input: the body-force loops of the wheel events (script.js:534-536, 541-543) are left out, like all of `Ball`'s physics (script.js:267-356, 842-854).
- `TextItem` sizing and `splitText`, and every rendering `draw` (script.js:56-128, 149-162, 288-309), are left out: they depend on the browser's `measureText` and drawing calls. The reading text and prompt are therefore not objects here. The reading lines' visibility is the `readingShown` variable, and the prompt is the `Prompt` value.
- `loop`, `main` and `setEventHandlers` (script.js:856-903) are left out as timer and DOM plumbing, except the `mousemove` listener's position update, which is `Script.Page.PointerMoved`.
- `createReading` (script.js:637-653) is left out: its line positions come from `measureText`. `readingHeight` is a constructor parameter, and `originalTextYArr[0]` is the constant 200 it always is.
