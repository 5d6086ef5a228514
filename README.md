# A Developer's Day — a Dafny model of the game core

"A Developer's Day" is a browser game. Five tasks sit on two kanban boards, and
each board has the columns todo, doing, qa, customer-qa and done. The player
drags every task to "done" on both boards before a two-minute game clock, shown
as a 9:00–17:00 workday, runs out. Several things get in the way:

- a moved task is locked on its board for ten seconds;
- colleagues send chat requests ("move task X on board N to column C");
- the player can only confirm a request once the task is in that column and
  at least 15 minutes are booked for it in an accounting ledger;
- three interruption bubbles (a software update, private life and
  accounting) grow over the screen until they are clicked.

This project models the game logic in `game.js`:

- the task store and its move and lock rules;
- how a chat request is generated and checked;
- the ledger and its time display;
- the game clock with its end decision;
- the bubble states.

It also proves properties of that model.

## Layout

| file | module | contents |
|---|---|---|
| `wrappers.dfy` | `Wrappers` | `Option` |
| `sequences.dfy` | `Sequences` | `indexOf` |
| `columns.dfy` | `Columns` | the column order, the neighbour rule, the next column |
| `timefmt.dfy` | `TimeFormat` | numbers as decimal text; `formatTime` and a reader for its output |
| `clock.dfy` | `Clock` | the game duration, the workday clock and its "HH:MM" text |
| `tasks.dfy` | `Tasks` | task records and the store invariant; moves, locks, lock expiry and bookings as pure functions with lemmas |
| `chat.dfy` | `Chat` | choosing a chat request; the check behind the "done" button |
| `session.dfy` | `Session` | the win test and end decision; the class `Game`, the session whose task array and flags the event handlers update in place; scenarios |

Modelling choices:

- **Tasks.** The task store is an `array<Task>` that the methods of `Game` update in place. Each method is proved against a pure function of the old state (`AfterMove`, `AfterLockExpiry`, `AfterAdjust`, `NewMessage`, `AfterMarkDone`, `DecideEnd`). The properties are proved about those functions.
- **Boards.** A task's three per-board fields (`board${b}Column`, `board${b}Locked`, `board${b}LockTimeout`) are grouped into one `Lane` per board.
- **Timers.** Browser timers become explicit events. `lockTask` stores the handle its unlock timer receives; `Game.nextTimer` stands for the handles `setTimeout` hands out. The unlock fires through `LockTimeoutFires` with the handle. A timer that `lockTask` cleared is represented by a handle that no longer matches, and its firing changes nothing.
- **Randomness.** A value of `Math.random()` is a `Draw`, a fraction num/den with num < den. `Math.floor(Math.random() * n)` is `Pick(n, draw)`.
- **Clock.** The current time is a parameter (`now`) of the constructor and of `Tick`.
- **Columns.** Columns stay strings, as in the game. `indexOf` answers -1 for an unknown name, and the model keeps that -1.

## Model

Rows for functions with no contract of their own name the lemma or method that proves their properties.

| member | source | states |
|---|---|---|
| Sequences.IndexOf | game.js:243-244 | `indexOf`: -1 exactly when the value is absent; otherwise the position of its first occurrence |
| Columns.ColumnIndex | game.js:243-244 | defined as the `indexOf` of a column in the column order, -1 for an unknown name; properties in Columns.ColumnIndexAt |
| Columns.ColumnIndexAt | game.js:239 | each of the five columns is found at its own position in the column order |
| Columns.AreNeighborColumns | game.js:242-248 | defined as the two indices differing by exactly one; properties in Columns.AreNeighborColumnsIsAdjacent |
| Columns.AreNeighborColumnsIsAdjacent | game.js:242-248 | two columns are neighbours exactly when one directly follows the other in the order, or when one is "todo" and the other is an unknown name; the relation is symmetric and irreflexive |
| Columns.NeighborsAreAdjacent | game.js:242-248 | an index difference of one means one column directly follows the other, or "todo" sits beside an unknown name |
| Columns.AdjacentAreNeighbors | game.js:242-248 | columns that directly follow each other in the order are neighbours |
| Columns.UnknownColumnNeighboursTodo | game.js:242-248 | as written, any name outside the column order counts as a neighbour of "todo" (its -1 differs from 0 by one) |
| Columns.GetNextColumn | game.js:373-379 | there is a next column exactly for a known column other than "done"; it sits one position further and is a neighbour of the current column |
| Tasks.InitialTasks | game.js:2-10 | the store starts with five tasks; their contents in Tasks.InitialTasksOk |
| Tasks.InitialTasksOk | game.js:2-10 | the initial store satisfies the store invariant (ids 1 to 5); every task has its title and starts in "todo" on both boards, unlocked, with no pending unlock and 0 minutes booked |
| Tasks.FindIndex | game.js:252 | `tasks.find` by id: -1 exactly when no task has the id; otherwise the first task with it |
| Tasks.FindIndexById | game.js:2-10 | in a consistent store, id n is at index n-1; an id outside 1..5 is not found |
| Tasks.LockTask | game.js:275-297 | defined as setting the lane's lock and replacing its pending unlock by the new handle; properties in Tasks.RelockCancelsPendingUnlock and Session.Game.LockTask |
| Tasks.UnlockTask | game.js:289-293 | defined as clearing the lane's lock and stored timer; properties in Tasks.LockExpiryEffect |
| Tasks.AfterLockExpiry | game.js:289-293 | defined as the store after unlock timer `handle` fires, unchanged when that timer was cleared; properties in Tasks.LockExpiryEffect and Tasks.RelockCancelsPendingUnlock |
| Tasks.RelockCancelsPendingUnlock | game.js:275-297 | after a re-lock, the cleared timer's callback changes nothing, and the new timer's callback unlocks exactly that lane |
| Tasks.LockExpiryEffect | game.js:289-293 | the unlock callback clears the lock and the stored timer of one lane of one task and nothing else; a stale handle is a no-op; the invariant is kept |
| Tasks.MoveAccepted | game.js:251-264 | defined as the guard of `moveTask`: the task exists, is unlocked on that board, and the target neighbours its column; properties in Tasks.MoveRejected and Tasks.MoveAcceptedEffect |
| Tasks.AfterMove | game.js:251-272 | defined as the store after `moveTask`; properties in Tasks.MoveRejected, Tasks.MoveAcceptedEffect, Tasks.MovePreservesTasksOk and Tasks.MoveLeavesColumnsOnlyFromTodo |
| Tasks.MoveRejected | game.js:251-264 | a move of an unknown task, of a task locked on that board, or to a non-neighbour column is refused and changes nothing |
| Tasks.MoveAcceptedEffect | game.js:251-297 | an accepted move puts the task in the target column on that board and locks it there with the new unlock timer; the other board, the task's other fields and all other tasks are unchanged; no unlock was pending; the invariant is kept |
| Tasks.MovePreservesTasksOk | game.js:251-297 | every move, accepted or not, keeps the store invariant |
| Tasks.MoveLeavesColumnsOnlyFromTodo | game.js:242-264 | from any known column other than "todo", an accepted move targets a known column |
| Tasks.AdjustedTime | game.js:843-847 | booked minutes become old + delta, raised to 0 when that is negative; the result is never negative |
| Tasks.AfterAdjust | game.js:840-855 | defined as the store after `adjustTaskTime`; properties in Tasks.AdjustEffect |
| Tasks.AdjustEffect | game.js:840-855 | a booking changes only the named task's booked minutes, to max(0, old + delta); an unknown id changes nothing; the invariant is kept |
| TimeFormat.Decimal | game.js:863-865 | the decimal text of a number inside a template literal is a non-empty digit string, one digit long exactly below 10, with no leading zero |
| TimeFormat.DecimalRoundTrip | game.js:863-865 | reading back the decimal text of n gives n |
| TimeFormat.DecimalOfCanonical | game.js:863-865 | conversely, digits with no leading zero are exactly the decimal text of their value |
| TimeFormat.FormatTime | game.js:858-866 | defined as `formatTime`: "{h}h {m}min" once there is a whole hour, "{m}min" before; properties in TimeFormat.FormatTimeRoundTrip |
| TimeFormat.ParseTime | game.js:858-866 | defined as a strict reader of ledger displays: "{h}h {m}min" with h above 0, or "{m}min", m below 60, no leading zeros; properties in TimeFormat.FormatTimeRoundTrip and TimeFormat.ParseTimeOnlyFormatted |
| TimeFormat.FormatTimeRoundTrip | game.js:858-866 | `formatTime` loses nothing: its "{h}h {m}min" or "{m}min" text reads back as the minutes it was given |
| TimeFormat.ParseTimeOnlyFormatted | game.js:858-866 | any text the reader accepts as v minutes is exactly `formatTime(v)`; with the round trip this fixes the text: an hour field exactly from 60 minutes on, h = minutes/60, m = minutes%60, no padding |
| Clock.ClockAt | game.js:76-78 | the clock starts at 9:00, has minutes below 60, and after elapsed ms shows elapsed/250 game minutes past 9:00 |
| Clock.ClockSpansWorkday | game.js:14-15 | the clock shows 09:00 at the start and 17:00 at the game duration, and never goes back |
| Clock.Pad2 | game.js:79 | defined as `padStart(2, '0')`; properties in Clock.Pad2Value |
| Clock.Pad2Value | game.js:79 | `String(n).padStart(2, '0')` of a number below 100 gives two digits that read back as the number |
| Clock.TimeString | game.js:79 | defined as the "HH:MM" text of the clock; properties in Clock.TimeStringDuringGame |
| Clock.TimeStringDuringGame | game.js:79 | during a game the clock text has the form "HH:MM"; its two digit pairs are the hour and the minute |
| Chat.Pick | game.js:393 | `Math.floor(Math.random() * n)` is an index below n |
| Chat.PickReaches | game.js:393 | every index below n is drawn by some value of `Math.random()` (k/n picks k) |
| Chat.NotDone | game.js:384-388 | defined as the filter's test: not in "done" on at least one board; properties in Chat.Movable |
| Chat.Movable | game.js:384-388 | the filtered list holds exactly the tasks not done on at least one board |
| Chat.MovableAppend | game.js:384-388 | the filter keeps the store's order: one more task in the store adds it, when not done, at the end of the list |
| Chat.MovableWhileNoneDone | game.js:384-388 | while no task is done on both boards, the filter keeps every task in order |
| Chat.ChooseBoard | game.js:395-406 | defined as the board with the lower column index, board 1 on a tie; properties in Chat.RequestForSpec |
| Chat.RequestFor | game.js:395-429 | defined as the request about one task: the chosen board and the next column there, none without a next column; properties in Chat.RequestForSpec and Chat.RequestForUnfinishedTask |
| Chat.RequestForSpec | game.js:395-429 | a request names the task and the board where it lags (board 1 on a tie); it asks for the column right after the task's current one there, which is a legal move; there is a request exactly when that column is known and not "done" |
| Chat.RequestForUnfinishedTask | game.js:395-410 | a task in known columns that is not done on both boards always yields a request |
| Chat.NewMessage | game.js:382-431 | defined as `sendRandomTaskMessage` for two draws of `Math.random()`; properties in Chat.NewMessageSpec and Chat.NewMessageReaches |
| Chat.NewMessageSpec | game.js:382-431 | with every task done there is no request; any request made is the request for some unfinished task, uses one of the five phrasings, and starts not completed |
| Chat.NewMessageReaches | game.js:382-431 | every movable task and every phrasing can be drawn: the k-th movable task in phrasing j, or no request when that task has no next column |
| Chat.CheckDone | game.js:474-493 | defined as the checks of `markMessageAsDone`, in the game's order; properties in Chat.CheckDoneSpec |
| Chat.CheckDoneSpec | game.js:474-504 | confirming succeeds exactly when the task is in the target column on the named board with at least 15 minutes booked; a wrong column is reported first, with the current column; otherwise missing time is reported, with the booked minutes |
| Chat.AfterMarkDone | game.js:474-503 | defined as the chat after a confirmation: the request is marked completed exactly when the checks pass; properties in Chat.MarkDoneSpec |
| Chat.MarkDoneSpec | game.js:496-503 | a confirmation changes at most the completed mark of that request; it never clears a mark; confirming again changes nothing |
| Session.AllTasksDone | game.js:103-107 | defined as every task being in "done" on both boards; properties in Session.AllTasksDoneIffNothingMovable and Session.Game.CheckWinCondition |
| Session.AllTasksDoneIffNothingMovable | game.js:103-107 | the win test holds exactly when the chat filter finds no task |
| Session.DecideEnd | game.js:87-97 | defined as the end test of `updateGameTime`, time-out before win; properties in Session.DecideEndSpec |
| Session.DecideEndSpec | game.js:87-97 | the game is lost once the duration has elapsed, even with every task done; it is won only before that, when no task is left; otherwise it goes on |
| Session.Game.constructor | game.js:45-60 | the initial store; an empty chat; the clock started at `now`; the update bubble growing; the other bubbles hidden |
| Session.Game.FindTask | game.js:252 | the loop finds the first task with the id, or -1, exactly as FindIndex |
| Session.Game.LockTask | game.js:275-297 | locks the lane with a fresh timer handle, replacing any pending one; nothing else changes |
| Session.Game.MoveTask | game.js:251-272 | the array becomes AfterMove of the old store with the next timer handle; the result says whether the move was accepted; a handle is used only then |
| Session.Game.Drop | game.js:221-234 | a drop moves the dragged task only when it is dropped on the board it came from, using a timer handle only if the move is accepted; otherwise nothing changes |
| Session.Game.LockTimeoutFires | game.js:289-293 | the store becomes AfterLockExpiry of the old store |
| Session.Game.AdjustTaskTime | game.js:840-855 | the store becomes AfterAdjust of the old store |
| Session.Game.MovableTasks | game.js:384-388 | the loop's result is Movable of the store |
| Session.Game.SendRandomTaskMessage | game.js:382-431 | the chat grows by NewMessage for the two draws, or not at all when there is none |
| Session.Game.MessageTimerFires | game.js:345-357 | the chat timers add a request only while the game runs |
| Session.Game.MarkMessageAsDone | game.js:474-504 | on a request not yet completed (its button is still enabled), the result is CheckDone of the request's data, and the chat becomes AfterMarkDone |
| Session.Game.CheckWinCondition | game.js:103-107 | the loop answers whether every task is done on both boards |
| Session.Game.Tick | game.js:63-100 | after the game has stopped a step does nothing; otherwise it shows the clock for the elapsed time and stops the game exactly when DecideEnd says time is up (lost) or all is done (won) |
| Session.Game.StartBubbleGrowth | game.js:542-548 | the update bubble is shown and grows; the bubble invariant holds |
| Session.Game.UpdateBubbleClicked | game.js:524-529 | a click opens the update dialog and pauses the bubble only while it grows; the bubble invariant holds |
| Session.Game.AcceptUpdate | game.js:532-535 | accepting closes the dialog, hides the bubble and starts the installation |
| Session.Game.FinishUpdate | game.js:617-632 | after the installation the bubble is shown and grows again |
| Session.Game.StartPrivateBubbleGrowth | game.js:661-667 | the private-life bubble is shown and grows |
| Session.Game.PrivateBubbleClicked | game.js:641-646 | a click opens the private-life dialog and pauses the bubble only while it grows |
| Session.Game.DismissPrivate | game.js:649-652 | dismissing closes the dialog and hides the bubble |
| Session.Game.StartAccountingBubbleGrowth | game.js:743-749 | the accounting bubble is shown and grows |
| Session.Game.AccountingBubbleClicked | game.js:722-728 | a click always opens the ledger and pauses the bubble |
| Session.Game.CloseAccounting | game.js:731-734 | closing the ledger hides the bubble |
| Session.LockScenario | game.js:251-297 | scenario: task 1 moves to "doing" on board 1, is refused "qa" while locked, and moves there once its unlock timer fired |
| Session.MarkDoneScenario | game.js:474-504 | scenario: confirming the request is refused for the column, then for the booked time, and succeeds after the move and a 15-minute booking |
| Session.BubbleScenario | game.js:518-795 | scenario: the update bubble's click, accept and install cycle, and one dismissal of each of the other two bubbles, keeping the bubble invariant |
| Session.FirstMove | game.js:251-297 | on the initial store, moving task 3 from "todo" to "doing" on board 1 is accepted and changes only that lane, which is then locked |
| Session.RequestAfterFirstMove | game.js:382-431 | after that move, the request drawn for task 3 names board 2, where it lags, and the column "doing" |
| Session.RequestScenario | game.js:382-431 | a new session, that move and one firing of the chat timer leave exactly that request in the chat, with task 3 still in "todo" on board 2 and nothing booked |

## Left out

- Rendering:
  - the DOM and drag styling;
  - lock progress bars and `LockStartTime`;
  - the timeline bar;
  - the ledger dialog's contents;
  - bubble sizes, opacity and animation frames;
  - the unread-message counter and badge;
  - `alert` texts and the German column names (`getColumnNameDE`);
  - the request's wording beyond which of the five phrasings was picked.

  None of these affects the game's state or its rules.
- Time:
  - Delays (the 10 s lock, the 1 s and 20 s chat timers, the 15 s and 20 s bubble delays, the 10 s installation and the 0.5 s pause after it) are not measured. The model has their timer callbacks as events that the environment may fire in any order.
  - Handles are numbered from 1 in the order timers are set. Other timers the game sets do not consume handles, because only the lock timers are ever cleared.
- Session.Game.Tick: requires `now >= gameStartTime`, so the wall clock is assumed never to go back.
- Clock.ClockAt: the game computes the clock in floating point. The model uses exact integer arithmetic (one game minute is 250 ms), which agrees with the floor of the floating-point value except possibly for rounding at exact minute boundaries.
- TimeFormat.FormatTime: takes natural numbers only. Booked minutes never go below 0, so the negative inputs for which JavaScript's `%` gives a negative remainder never reach it.
- Boards: only the two boards, 1 and 2. The drop handler passes the board as the string "1" or "2", and the model's `Board` datatype stands for it.
- Session.Game.UpdateBubbleClicked, Session.Game.PrivateBubbleClicked, Session.Game.AccountingBubbleClicked, Session.Game.AcceptUpdate, Session.Game.DismissPrivate, Session.Game.CloseAccounting: each requires that its bubble is shown or its dialog open. A hidden element receives no clicks, so the model does not cover clicks on hidden elements.
- Session.Game.MarkMessageAsDone: requires the request not to be completed yet. The game disables a request's button once it is confirmed, so a second confirmation cannot happen.
- Session.Game.StartBubbleGrowth, Session.Game.StartPrivateBubbleGrowth, Session.Game.StartAccountingBubbleGrowth: each requires the bubble to be hidden (for the update bubble: no dialog open and no installation running). The game arms these timers only in that state.

Behaviour of the code that the model keeps as it is:

- The lock duration and the bubble growth rates are fixed constants.
- The end of a game reports only won or lost.
- Chat requests keep arriving until the game stops.
- The game ends as soon as every task is done on both boards, before the clock runs out.
- Moves, bookings and bubbles keep working after the game has ended. Only the clock step and the chat timers look at the running flag.
