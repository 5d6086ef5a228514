/**
 * One game session: the task store as an array of five records updated in
 * place, the chat history, the game clock's running flag and the flags of
 * the three interruption bubbles. Every timer callback of the browser game
 * (lock expiry, the chat interval, bubble restarts, the animation frame that
 * checks the clock) is a method the environment calls, with the current time
 * or the random draws as arguments.
 */
module Session {
  import opened Wrappers
  import opened Columns
  import opened Clock
  import opened Tasks
  import opened Chat

  /** The win test: every task is in "done" on both boards. */
  predicate AllTasksDone(ts: seq<Task>) {
    forall k :: 0 <= k < |ts| ==> ts[k].board1.column == "done" && ts[k].board2.column == "done"
  }

  /** The win test and the chat filter agree: all tasks are done exactly when no task can be asked about. */
  lemma {:induction false} AllTasksDoneIffNothingMovable(ts: seq<Task>)
    ensures AllTasksDone(ts) <==> Movable(ts) == []
  {
    if |ts| > 0 {
      AllTasksDoneIffNothingMovable(ts[1..]);
      assert AllTasksDone(ts) <==> !NotDone(ts[0]) && AllTasksDone(ts[1..]) by {
        if !NotDone(ts[0]) && AllTasksDone(ts[1..]) {
          forall k | 0 <= k < |ts| ensures ts[k].board1.column == "done" && ts[k].board2.column == "done" {
            if k > 0 { assert ts[k] == ts[1..][k - 1]; }
          }
        }
        if AllTasksDone(ts) {
          forall k | 0 <= k < |ts| - 1
            ensures ts[1..][k].board1.column == "done" && ts[1..][k].board2.column == "done"
          {
            assert ts[1..][k] == ts[k + 1];
          }
        }
      }
    }
  }

  /** How a step of the game clock ends. */
  datatype EndDecision = KeepRunning | TimeUp | AllDone

  /** The end test of `updateGameTime`: running out of time is checked before the win. */
  function DecideEnd(elapsed: int, ts: seq<Task>): EndDecision {
    if elapsed >= GAME_DURATION then TimeUp
    else if AllTasksDone(ts) then AllDone
    else KeepRunning
  }

  /**
   * The game is lost once the duration has elapsed, even with every task
   * done; it is won only before that, with every task done on both boards.
   */
  lemma DecideEndSpec(elapsed: int, ts: seq<Task>)
    ensures DecideEnd(elapsed, ts) == TimeUp <==> elapsed >= GAME_DURATION
    ensures DecideEnd(elapsed, ts) == AllDone <==> elapsed < GAME_DURATION && Movable(ts) == []
    ensures DecideEnd(elapsed, ts) == KeepRunning <==> elapsed < GAME_DURATION && Movable(ts) != []
  {
    AllTasksDoneIffNothingMovable(ts);
  }

  /** What one clock step shows: nothing once the game is over, else the "HH:MM" clock and maybe the end. */
  datatype TickOutcome = NotRunning | Running(clock: string) | GameOver(won: bool, clock: string)

  /** The task being dragged: its id and the board it was picked up from. */
  datatype DraggedTask = DraggedTask(id: int, board: Board)

  class Game {
    const tasks: array<Task>
    /** The handle the next `setTimeout` returns. */
    var nextTimer: TimerId
    var gameStartTime: int
    var gameRunning: bool
    var messages: seq<ChatMessage>

    // Each bubble: shown or hidden, growing or not, and its dialog open or not.
    var updateBubbleShown: bool
    var bubbleGrowing: bool
    var updateModalOpen: bool
    var updateInstalling: bool
    var privateBubbleShown: bool
    var privateBubbleGrowing: bool
    var privateModalOpen: bool
    var accountingBubbleShown: bool
    var accountingBubbleGrowing: bool
    var accountingModalOpen: bool

    ghost predicate Valid()
      reads this, tasks
    {
      tasks.Length == 5 && TasksOk(tasks[..], nextTimer) && BubblesOk()
    }

    /**
     * Each bubble is hidden, growing, or paused with its dialog open: only a
     * shown bubble grows, and a dialog is open only beside its paused bubble.
     * While the update installs, its bubble is hidden.
     */
    predicate BubblesOk()
      reads this
    {
      && (bubbleGrowing ==> updateBubbleShown)
      && (updateModalOpen ==> updateBubbleShown && !bubbleGrowing)
      && (updateInstalling ==> !updateBubbleShown && !updateModalOpen)
      && (privateBubbleGrowing ==> privateBubbleShown)
      && (privateModalOpen ==> privateBubbleShown && !privateBubbleGrowing)
      && (accountingBubbleGrowing ==> accountingBubbleShown)
      && (accountingModalOpen ==> accountingBubbleShown && !accountingBubbleGrowing)
    }

    /** `initGame` at time `now`: the initial store, the update bubble growing, the clock started. */
    constructor (now: int)
      ensures Valid() && fresh(tasks)
      ensures tasks[..] == InitialTasks() && messages == []
      ensures gameStartTime == now && gameRunning
      ensures updateBubbleShown && bubbleGrowing && !updateModalOpen && !updateInstalling
      ensures !privateBubbleShown && !privateBubbleGrowing && !privateModalOpen
      ensures !accountingBubbleShown && !accountingBubbleGrowing && !accountingModalOpen
    {
      tasks := new Task[5](i requires 0 <= i < 5 => InitialTasks()[i]);
      nextTimer := 1;
      gameStartTime := now;
      gameRunning := true;
      messages := [];
      updateBubbleShown, bubbleGrowing := true, true;
      updateModalOpen, updateInstalling := false, false;
      privateBubbleShown, privateBubbleGrowing, privateModalOpen := false, false, false;
      accountingBubbleShown, accountingBubbleGrowing, accountingModalOpen := false, false, false;
      new;
      assert tasks[..] == InitialTasks();
      InitialTasksOk(nextTimer);
    }

    // -------------------------------------------------------------------------
    // Task store

    /** `gameState.tasks.find(t => t.id === id)`, as an index or -1. */
    method FindTask(id: int) returns (i: int)
      ensures i == FindIndex(tasks[..], id)
    {
      i := 0;
      while i < tasks.Length
        invariant 0 <= i <= tasks.Length
        invariant forall k :: 0 <= k < i ==> tasks[k].id != id
      {
        if tasks[i].id == id {
          return;
        }
        i := i + 1;
      }
      i := -1;
    }

    /** `lockTask(tasks[i], board)`: cancel the pending unlock, lock, and arm a new unlock timer. */
    method LockTask(i: nat, board: Board)
      requires Valid() && i < tasks.Length
      modifies this`nextTimer, tasks
      ensures Valid()
      ensures tasks[..] == old(tasks[..])[i := Tasks.LockTask(old(tasks[i]), board, old(nextTimer))]
      ensures nextTimer == old(nextTimer) + 1
    {
      ghost var before := tasks[..];
      var lane := tasks[i].On(board);
      tasks[i] := tasks[i].WithLane(board, lane.(locked := true, lockTimeout := Some(nextTimer)));
      nextTimer := nextTimer + 1;
      forall k | 0 <= k < tasks.Length ensures tasks[k].id == k + 1 && TaskOk(tasks[k], nextTimer) {
        assert before[k].id == k + 1 && TaskOk(before[k], nextTimer - 1);
      }
    }

    /** `moveTask(taskId, newColumn, board)`; `moved` says whether the move was accepted. */
    method MoveTask(taskId: int, newColumn: string, board: Board) returns (moved: bool)
      requires Valid()
      modifies this`nextTimer, tasks
      ensures Valid()
      ensures moved == MoveAccepted(old(tasks[..]), taskId, newColumn, board)
      ensures tasks[..] == AfterMove(old(tasks[..]), taskId, newColumn, board, old(nextTimer))
      ensures nextTimer == if moved then old(nextTimer) + 1 else old(nextTimer)
    {
      ghost var before, handle := tasks[..], nextTimer;
      var i := FindTask(taskId);
      moved := false;
      if i != -1 && !tasks[i].On(board).locked {
        var task := tasks[i];
        if !AreNeighborColumns(task.On(board).column, newColumn) {
          assert !MoveAccepted(before, taskId, newColumn, board);
          return;
        }
        assert MoveAccepted(before, taskId, newColumn, board);
        var moving := task.WithLane(board, task.On(board).(column := newColumn));
        tasks[i] := moving;
        assert TasksOk(tasks[..], nextTimer) by {
          forall k | 0 <= k < tasks.Length ensures tasks[k].id == k + 1 && TaskOk(tasks[k], nextTimer) {
            assert before[k].id == k + 1 && TaskOk(before[k], nextTimer);
          }
        }
        LockTask(i, board);
        assert tasks[..] == before[i := Tasks.LockTask(moving, board, handle)];
        moved := true;
      } else {
        assert !MoveAccepted(before, taskId, newColumn, board);
      }
    }

    /** The drop handler: a task dropped on the board it came from is moved to the drop column. */
    method Drop(dragged: Option<DraggedTask>, column: string, dropBoard: Board) returns (moved: bool)
      requires Valid()
      modifies this`nextTimer, tasks
      ensures Valid()
      ensures moved <==> dragged.Some? && dragged.value.board == dropBoard
                         && MoveAccepted(old(tasks[..]), dragged.value.id, column, dropBoard)
      ensures dragged.Some? && dragged.value.board == dropBoard ==>
        tasks[..] == AfterMove(old(tasks[..]), dragged.value.id, column, dropBoard, old(nextTimer))
      ensures !(dragged.Some? && dragged.value.board == dropBoard) ==> tasks[..] == old(tasks[..])
      ensures nextTimer == if moved then old(nextTimer) + 1 else old(nextTimer)
    {
      moved := false;
      if dragged.Some? && dragged.value.board == dropBoard {
        moved := MoveTask(dragged.value.id, column, dropBoard);
      }
    }

    /** The unlock timer `handle` armed by `lockTask(tasks[i], board)` fires. */
    method LockTimeoutFires(i: nat, board: Board, handle: TimerId)
      requires Valid() && i < tasks.Length
      modifies tasks
      ensures Valid()
      ensures tasks[..] == AfterLockExpiry(old(tasks[..]), i, board, handle)
    {
      LockExpiryEffect(tasks[..], nextTimer, i, board, handle);
      if tasks[i].On(board).lockTimeout == Some(handle) {
        tasks[i] := UnlockTask(tasks[i], board);
      }
    }

    /** `adjustTaskTime(taskId, minutes)`. */
    method AdjustTaskTime(taskId: int, minutes: int)
      requires Valid()
      modifies tasks
      ensures Valid()
      ensures tasks[..] == AfterAdjust(old(tasks[..]), taskId, minutes)
    {
      AdjustEffect(tasks[..], nextTimer, taskId, minutes);
      var i := FindTask(taskId);
      if i != -1 {
        var booked := tasks[i].accountedTime + minutes;
        if booked < 0 {
          booked := 0;
        }
        tasks[i] := tasks[i].(accountedTime := booked);
      }
    }

    // -------------------------------------------------------------------------
    // Chat

    /** The `filter` of `sendRandomTaskMessage`, in store order. */
    method MovableTasks() returns (movable: seq<Task>)
      ensures movable == Movable(tasks[..])
    {
      movable := [];
      var i := 0;
      while i < tasks.Length
        invariant 0 <= i <= tasks.Length
        invariant movable == Movable(tasks[..i])
      {
        assert tasks[..i + 1] == tasks[..i] + [tasks[i]];
        MovableAppend(tasks[..i], tasks[i]);
        if NotDone(tasks[i]) {
          movable := movable + [tasks[i]];
        }
        i := i + 1;
      }
      assert tasks[..i] == tasks[..];
    }

    /** `sendRandomTaskMessage` with the two values `Math.random()` returned. */
    method SendRandomTaskMessage(taskDraw: Draw, templateDraw: Draw)
      modifies this`messages
      ensures messages == old(messages) + match NewMessage(tasks[..], taskDraw, templateDraw)
                                          case None => []
                                          case Some(m) => [m]
    {
      var movable := MovableTasks();
      if |movable| == 0 {
        return;
      }
      var task := movable[Pick(|movable|, taskDraw)];
      var board := if ColumnIndex(task.board1.column) <= ColumnIndex(task.board2.column) then Board1 else Board2;
      assert board == ChooseBoard(task);
      var next := GetNextColumn(task.On(board).column);
      if next.None? {
        assert RequestFor(task) == None;
        return;
      }
      var message := ChatMessage(Pick(TEMPLATE_COUNT, templateDraw), TaskData(task.id, board, next.value), false);
      assert RequestFor(task) == Some(message.data);
      assert NewMessage(tasks[..], taskDraw, templateDraw) == Some(message);
      messages := messages + [message];
    }

    /** The chat timer (the first message after 1 s, then every 20 s): a request only while the game runs. */
    method MessageTimerFires(taskDraw: Draw, templateDraw: Draw)
      modifies this`messages
      ensures !old(gameRunning) ==> messages == old(messages)
      ensures old(gameRunning) ==> messages == old(messages) + match NewMessage(tasks[..], taskDraw, templateDraw)
                                                             case None => []
                                                             case Some(m) => [m]
    {
      if gameRunning {
        SendRandomTaskMessage(taskDraw, templateDraw);
      }
    }

    /**
     * `markMessageAsDone` on request k of the history. Its button is disabled
     * once the request is completed, so only an open request is confirmed.
     */
    method MarkMessageAsDone(k: nat) returns (result: DoneResult)
      requires k < |messages| && !messages[k].completed
      modifies this`messages
      ensures result == CheckDone(tasks[..], old(messages)[k].data)
      ensures messages == AfterMarkDone(old(messages), tasks[..], k)
    {
      var data := messages[k].data;
      var i := FindTask(data.taskId);
      if i == -1 {
        return UnknownTask;
      }
      var current := tasks[i].On(data.boardId).column;
      if current != data.targetColumn {
        return WrongColumn(current);
      }
      if tasks[i].accountedTime < MIN_BOOKED_MINUTES {
        return TimeNotBooked(tasks[i].accountedTime);
      }
      messages := messages[k := messages[k].(completed := true)];
      result := Completed;
    }

    // -------------------------------------------------------------------------
    // Clock

    /** `checkWinCondition`. */
    method CheckWinCondition() returns (won: bool)
      ensures won == AllTasksDone(tasks[..])
    {
      var i := 0;
      while i < tasks.Length
        invariant 0 <= i <= tasks.Length
        invariant AllTasksDone(tasks[..i])
      {
        if tasks[i].board1.column != "done" || tasks[i].board2.column != "done" {
          return false;
        }
        assert tasks[..i + 1] == tasks[..i] + [tasks[i]];
        i := i + 1;
      }
      assert tasks[..i] == tasks[..];
      return true;
    }

    /** One `updateGameTime` step at time `now`: show the clock, then end on time-out or on a win. */
    method Tick(now: int) returns (outcome: TickOutcome)
      requires now >= gameStartTime
      modifies this`gameRunning
      ensures !old(gameRunning) ==> outcome == NotRunning && !gameRunning
      ensures old(gameRunning) ==>
        var elapsed := now - gameStartTime;
        var clock := TimeString(ClockAt(elapsed));
        match DecideEnd(elapsed, tasks[..])
        case KeepRunning => outcome == Running(clock) && gameRunning
        case TimeUp => outcome == GameOver(false, clock) && !gameRunning
        case AllDone => outcome == GameOver(true, clock) && !gameRunning
    {
      if !gameRunning {
        return NotRunning;
      }
      var elapsed := now - gameStartTime;
      var clock := TimeString(ClockAt(elapsed));
      if elapsed >= GAME_DURATION {
        gameRunning := false;
        return GameOver(false, clock);
      }
      var won := CheckWinCondition();
      if won {
        gameRunning := false;
        return GameOver(true, clock);
      }
      outcome := Running(clock);
    }

    // -------------------------------------------------------------------------
    // Interruption bubbles. A click reaches only a shown bubble and a dialog
    // button only an open dialog; a bubble's start timer is armed only while
    // it is hidden.

    /** `startBubbleGrowth`: show the update bubble and let it grow. */
    method StartBubbleGrowth()
      requires BubblesOk() && !updateModalOpen && !updateInstalling
      modifies this`updateBubbleShown, this`bubbleGrowing
      ensures BubblesOk() && updateBubbleShown && bubbleGrowing
    {
      updateBubbleShown := true;
      bubbleGrowing := true;
    }

    /** A click on the update bubble pauses it and opens the update dialog, but only while it grows. */
    method UpdateBubbleClicked() returns (shown: bool)
      requires BubblesOk() && updateBubbleShown
      modifies this`bubbleGrowing, this`updateModalOpen
      ensures BubblesOk()
      ensures shown == old(bubbleGrowing)
      ensures !bubbleGrowing
      ensures updateModalOpen == (old(updateModalOpen) || old(bubbleGrowing))
    {
      shown := bubbleGrowing;
      if bubbleGrowing {
        bubbleGrowing := false;
        updateModalOpen := true;
      }
    }

    /** Accepting the update closes the dialog, hides the bubble and starts the installation; the clock keeps running. */
    method AcceptUpdate()
      requires BubblesOk() && updateModalOpen
      modifies this`updateModalOpen, this`updateInstalling, this`updateBubbleShown
      ensures BubblesOk()
      ensures !updateModalOpen && updateInstalling && !updateBubbleShown
    {
      updateModalOpen := false;
      updateBubbleShown := false;
      updateInstalling := true;
    }

    /** The installation finished (`finishUpdate`'s timer): hide the overlay and grow the bubble again. */
    method FinishUpdate()
      requires BubblesOk() && updateInstalling
      modifies this`updateInstalling, this`updateBubbleShown, this`bubbleGrowing
      ensures BubblesOk()
      ensures !updateInstalling && updateBubbleShown && bubbleGrowing
    {
      updateInstalling := false;
      StartBubbleGrowth();
    }

    /** `startPrivateBubbleGrowth`, when its delay after setup or after a dismissal ends. */
    method StartPrivateBubbleGrowth()
      requires BubblesOk() && !privateBubbleShown
      modifies this`privateBubbleShown, this`privateBubbleGrowing
      ensures BubblesOk() && privateBubbleShown && privateBubbleGrowing
    {
      privateBubbleShown := true;
      privateBubbleGrowing := true;
    }

    /** A click on the private-life bubble pauses it and opens its dialog, but only while it grows. */
    method PrivateBubbleClicked() returns (shown: bool)
      requires BubblesOk() && privateBubbleShown
      modifies this`privateBubbleGrowing, this`privateModalOpen
      ensures BubblesOk()
      ensures shown == old(privateBubbleGrowing)
      ensures !privateBubbleGrowing
      ensures privateModalOpen == (old(privateModalOpen) || old(privateBubbleGrowing))
    {
      shown := privateBubbleGrowing;
      if privateBubbleGrowing {
        privateBubbleGrowing := false;
        privateModalOpen := true;
      }
    }

    /** Dismissing the private-life dialog closes it and hides the bubble (`resetPrivateBubble`). */
    method DismissPrivate()
      requires BubblesOk() && privateModalOpen
      modifies this`privateModalOpen, this`privateBubbleShown
      ensures BubblesOk()
      ensures !privateModalOpen && !privateBubbleShown && !privateBubbleGrowing
    {
      privateModalOpen := false;
      privateBubbleShown := false;
    }

    /** `startAccountingBubbleGrowth`, when its delay after setup or after the ledger closed ends. */
    method StartAccountingBubbleGrowth()
      requires BubblesOk() && !accountingBubbleShown
      modifies this`accountingBubbleShown, this`accountingBubbleGrowing
      ensures BubblesOk() && accountingBubbleShown && accountingBubbleGrowing
    {
      accountingBubbleShown := true;
      accountingBubbleGrowing := true;
    }

    /** A click on the accounting bubble always opens the ledger, pausing the bubble if it grows. */
    method AccountingBubbleClicked()
      requires BubblesOk() && accountingBubbleShown
      modifies this`accountingBubbleGrowing, this`accountingModalOpen
      ensures BubblesOk()
      ensures !accountingBubbleGrowing && accountingModalOpen
    {
      if accountingBubbleGrowing {
        accountingBubbleGrowing := false;
      }
      accountingModalOpen := true;
    }

    /** Closing the ledger closes it and hides the bubble (`resetAccountingBubble`). */
    method CloseAccounting()
      requires BubblesOk() && accountingModalOpen
      modifies this`accountingModalOpen, this`accountingBubbleShown
      ensures BubblesOk()
      ensures !accountingModalOpen && !accountingBubbleShown && !accountingBubbleGrowing
    {
      accountingModalOpen := false;
      accountingBubbleShown := false;
    }
  }

  /**
   * A move locks the task on that board for the lock's duration: task 1
   * goes from "todo" to "doing" on board 1, cannot go on to "qa" while the
   * lock holds (board 2 stays free), and can once the unlock timer fired.
   */
  method LockScenario() {
    var game := new Game(0);
    var handle := game.nextTimer;
    var moved := game.MoveTask(1, "doing", Board1);
    assert moved;
    moved := game.MoveTask(1, "qa", Board1);
    assert !moved;
    game.LockTimeoutFires(0, Board1, handle);
    moved := game.MoveTask(1, "qa", Board1);
    assert moved && game.tasks[0].board1.column == "qa" && game.tasks[0].board2.column == "todo";
  }

  /** The first move of the game: task 3 from "todo" to "doing" on board 1. */
  lemma FirstMove(handle: TimerId)
    ensures var ts0 := InitialTasks();
      AfterMove(ts0, 3, "doing", Board1, handle) == ts0[2 := ts0[2].(board1 := Lane("doing", true, Some(handle)))]
  {
    var ts0 := InitialTasks();
    ColumnIndexAt(0);
    ColumnIndexAt(1);
    InitialTasksOk(handle);
    FindIndexById(ts0, handle, 3);
    assert MoveAccepted(ts0, 3, "doing", Board1);
  }

  /**
   * Task 3 is ahead on board 1 after that move, so a request about it names
   * board 2 and the column after "todo" there.
   */
  lemma RequestAfterFirstMove(handle: TimerId)
    ensures var ts0 := InitialTasks();
      var ts := ts0[2 := ts0[2].(board1 := Lane("doing", true, Some(handle)))];
      NewMessage(ts, Fraction(2, 5), Fraction(0, 1)) == Some(ChatMessage(0, TaskData(3, Board2, "doing"), false))
  {
    var ts0 := InitialTasks();
    var ts := ts0[2 := ts0[2].(board1 := Lane("doing", true, Some(handle)))];
    ColumnIndexAt(0);
    ColumnIndexAt(1);
    assert forall k :: 0 <= k < |ts| ==> NotDone(ts[k]);
    MovableWhileNoneDone(ts);
    assert Pick(5, Fraction(2, 5)) == 2 && Pick(TEMPLATE_COUNT, Fraction(0, 1)) == 0;
    assert ChooseBoard(ts[2]) == Board2;
    assert RequestFor(ts[2]) == Some(TaskData(3, Board2, "doing"));
  }

  /** The request of RequestAfterFirstMove, produced by a new session: the move, then one firing of the chat timer. */
  method RequestScenario() returns (game: Game)
    ensures game.Valid() && fresh(game) && fresh(game.tasks)
    ensures game.messages == [ChatMessage(0, TaskData(3, Board2, "doing"), false)]
    ensures game.tasks[2].board2 == START_LANE && game.tasks[2].accountedTime == 0
  {
    game := new Game(0);
    var handle := game.nextTimer;
    FirstMove(handle);
    RequestAfterFirstMove(handle);
    ghost var ts0 := InitialTasks();
    ghost var ts := ts0[2 := ts0[2].(board1 := Lane("doing", true, Some(handle)))];
    var moved := game.MoveTask(3, "doing", Board1);
    assert game.tasks[..] == ts;
    game.MessageTimerFires(Fraction(2, 5), Fraction(0, 1));
    assert game.tasks[2] == ts[2];
  }

  /**
   * Confirming that request is refused for the column while task 3 is still
   * in "todo" on board 2, then for the time while nothing is booked, and
   * succeeds once both hold.
   */
  method MarkDoneScenario() {
    var game := RequestScenario();
    FindIndexById(game.tasks[..], game.nextTimer, 3);
    var result := game.MarkMessageAsDone(0);
    assert result == WrongColumn("todo");
    ColumnIndexAt(0);
    ColumnIndexAt(1);
    var moved := game.MoveTask(3, "doing", Board2);
    assert moved;
    FindIndexById(game.tasks[..], game.nextTimer, 3);
    result := game.MarkMessageAsDone(0);
    assert result == TimeNotBooked(0);
    game.AdjustTaskTime(3, 15);
    FindIndexById(game.tasks[..], game.nextTimer, 3);
    result := game.MarkMessageAsDone(0);
    assert result == Completed && game.messages[0].completed;
  }

  /**
   * The update bubble's cycle: a click on the growing bubble opens the
   * dialog and a second click does nothing more; accepting hides the bubble
   * while the update installs, and it grows again afterwards. The other two
   * bubbles appear only when their delays end and go away when dismissed.
   */
  method BubbleScenario() {
    var game := new Game(0);
    var shown := game.UpdateBubbleClicked();
    assert shown && game.updateModalOpen;
    shown := game.UpdateBubbleClicked();
    assert !shown;
    game.AcceptUpdate();
    game.FinishUpdate();
    assert game.updateBubbleShown && game.bubbleGrowing && !game.updateModalOpen;
    game.StartPrivateBubbleGrowth();
    shown := game.PrivateBubbleClicked();
    assert shown;
    game.DismissPrivate();
    game.StartAccountingBubbleGrowth();
    game.AccountingBubbleClicked();
    game.AccountingBubbleClicked();
    game.CloseAccounting();
    assert !game.privateBubbleShown && !game.accountingBubbleShown && game.Valid();
  }
}
