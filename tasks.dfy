/**
 * The task store: five task records, each with an independent column and
 * lock per board, and the pure meaning of every change the game makes to
 * them (a move with its lock, the lock's expiry, a ledger booking). The
 * browser's timers become explicit events: a lock remembers the handle of
 * its pending unlock, and the unlock fires by naming that handle.
 */
module Tasks {
  import opened Wrappers
  import opened Columns

  datatype Board = Board1 | Board2 {
    function Other(): Board {
      if Board1? then Board2 else Board1
    }
  }

  /** A browser timer handle (what `setTimeout` returns). */
  type TimerId = nat

  /** One board's view of a task: its column, whether it is locked, and the pending unlock. */
  datatype Lane = Lane(column: string, locked: bool, lockTimeout: Option<TimerId>)

  datatype Task = Task(id: int, title: string, board1: Lane, board2: Lane, accountedTime: int) {
    /** The fields `board${b}Column`, `board${b}Locked`, `board${b}LockTimeout`. */
    function On(b: Board): Lane {
      match b
      case Board1 => board1
      case Board2 => board2
    }

    function WithLane(b: Board, lane: Lane): Task {
      match b
      case Board1 => this.(board1 := lane)
      case Board2 => this.(board2 := lane)
    }
  }

  const TITLES: seq<string> := [
    "Login Bug fixen", "API Endpoint implementieren", "Datenbank Migration",
    "UI Komponente refactoring", "Performance optimieren"]

  const START_LANE: Lane := Lane("todo", false, None)

  /** The store at game start: ids 1 to 5, all in "todo", unlocked, nothing booked. */
  function InitialTasks(): (ts: seq<Task>)
    ensures |ts| == 5
  {
    seq(5, i requires 0 <= i < 5 => Task(i + 1, TITLES[i], START_LANE, START_LANE, 0))
  }

  // ---------------------------------------------------------------------------
  // The store's invariant

  /** A lane is locked exactly while an unlock is pending, and that unlock's handle was issued already. */
  predicate LaneOk(lane: Lane, nextTimer: TimerId) {
    lane.locked == lane.lockTimeout.Some?
    && (lane.lockTimeout.Some? ==> lane.lockTimeout.value < nextTimer)
  }

  predicate TaskOk(t: Task, nextTimer: TimerId) {
    LaneOk(t.board1, nextTimer) && LaneOk(t.board2, nextTimer) && t.accountedTime >= 0
  }

  /** Task k has id k + 1 (ids are never reassigned), and every record is consistent. */
  predicate TasksOk(ts: seq<Task>, nextTimer: TimerId) {
    forall k :: 0 <= k < |ts| ==> ts[k].id == k + 1 && TaskOk(ts[k], nextTimer)
  }

  /**
   * The initial store is consistent, and every task starts in "todo" on
   * both boards, unlocked, with no pending unlock and nothing booked.
   */
  lemma InitialTasksOk(nextTimer: TimerId)
    ensures TasksOk(InitialTasks(), nextTimer)
    ensures forall k :: 0 <= k < 5 ==>
      InitialTasks()[k].board1 == START_LANE && InitialTasks()[k].board2 == START_LANE
      && InitialTasks()[k].accountedTime == 0 && InitialTasks()[k].title == TITLES[k]
  {
  }

  // ---------------------------------------------------------------------------
  // Lookup

  /** `tasks.find(t => t.id === id)`, as the index of the first match or -1. */
  function FindIndex(ts: seq<Task>, id: int): (r: int)
    ensures -1 <= r < |ts|
    ensures r == -1 <==> forall k :: 0 <= k < |ts| ==> ts[k].id != id
    ensures 0 <= r ==> ts[r].id == id && forall k :: 0 <= k < r ==> ts[k].id != id
  {
    if |ts| == 0 then -1
    else if ts[0].id == id then 0
    else
      var k := FindIndex(ts[1..], id);
      if k == -1 then -1 else k + 1
  }

  /** In a consistent store, id n is found at index n - 1 when it exists. */
  lemma FindIndexById(ts: seq<Task>, nextTimer: TimerId, id: int)
    requires TasksOk(ts, nextTimer)
    ensures FindIndex(ts, id) == if 1 <= id <= |ts| then id - 1 else -1
  {
    if 1 <= id <= |ts| {
      assert ts[id - 1].id == id;
    }
  }

  // ---------------------------------------------------------------------------
  // Locks

  /** `lockTask`: replace any pending unlock by a new one and set the lock. */
  function LockTask(t: Task, b: Board, handle: TimerId): Task {
    t.WithLane(b, t.On(b).(locked := true, lockTimeout := Some(handle)))
  }

  /** The unlock callback: clear the lock and forget the timer. */
  function UnlockTask(t: Task, b: Board): Task {
    t.WithLane(b, t.On(b).(locked := false, lockTimeout := None))
  }

  /** The timer `handle` set by `lockTask(ts[i], b)` fires; a cleared timer does nothing. */
  function AfterLockExpiry(ts: seq<Task>, i: nat, b: Board, handle: TimerId): seq<Task>
    requires i < |ts|
  {
    if ts[i].On(b).lockTimeout == Some(handle) then ts[i := UnlockTask(ts[i], b)] else ts
  }

  /**
   * Locking with a new handle cancels the pending unlock: the old timer's
   * firing changes nothing, while the new one's releases exactly this lane.
   */
  lemma RelockCancelsPendingUnlock(ts: seq<Task>, i: nat, b: Board, oldHandle: TimerId, handle: TimerId)
    requires i < |ts| && oldHandle != handle
    ensures var locked := ts[i := LockTask(ts[i], b, handle)];
      AfterLockExpiry(locked, i, b, oldHandle) == locked
      && AfterLockExpiry(locked, i, b, handle)[i].On(b) == ts[i].On(b).(locked := false, lockTimeout := None)
      && AfterLockExpiry(locked, i, b, handle)[i].On(b.Other()) == ts[i].On(b.Other())
  {
  }

  /**
   * A lock expiry releases one lane of one task and nothing else: the
   * column stays, the other board's lane and all other tasks are untouched.
   */
  lemma LockExpiryEffect(ts: seq<Task>, nextTimer: TimerId, i: nat, b: Board, handle: TimerId)
    requires i < |ts| && TasksOk(ts, nextTimer)
    ensures var r := AfterLockExpiry(ts, i, b, handle);
      |r| == |ts| && TasksOk(r, nextTimer)
      && (forall k :: 0 <= k < |ts| && k != i ==> r[k] == ts[k])
      && r[i].On(b).column == ts[i].On(b).column
      && r[i].On(b.Other()) == ts[i].On(b.Other())
      && r[i].id == ts[i].id && r[i].accountedTime == ts[i].accountedTime
      && (ts[i].On(b).lockTimeout == Some(handle) ==> !r[i].On(b).locked && r[i].On(b).lockTimeout == None)
      && (ts[i].On(b).lockTimeout != Some(handle) ==> r == ts)
  {
    var r := AfterLockExpiry(ts, i, b, handle);
    forall k | 0 <= k < |r| ensures r[k].id == k + 1 && TaskOk(r[k], nextTimer) {
      assert ts[k].id == k + 1 && TaskOk(ts[k], nextTimer);
    }
  }

  // ---------------------------------------------------------------------------
  // Moves

  /** The guard of `moveTask`: the task exists, is unlocked on `b`, and the target neighbours its column there. */
  predicate MoveAccepted(ts: seq<Task>, taskId: int, newColumn: string, b: Board) {
    var i := FindIndex(ts, taskId);
    i != -1 && !ts[i].On(b).locked && AreNeighborColumns(ts[i].On(b).column, newColumn)
  }

  /** `moveTask(taskId, newColumn, b)`, with `handle` the id its `lockTask` timer receives. */
  function AfterMove(ts: seq<Task>, taskId: int, newColumn: string, b: Board, handle: TimerId): seq<Task> {
    if MoveAccepted(ts, taskId, newColumn, b) then
      var i := FindIndex(ts, taskId);
      var t := ts[i];
      ts[i := LockTask(t.WithLane(b, t.On(b).(column := newColumn)), b, handle)]
    else ts
  }

  /** A move is refused, leaving the store as it was, for an unknown id, a lock, or a non-neighbour target. */
  lemma MoveRejected(ts: seq<Task>, taskId: int, newColumn: string, b: Board, handle: TimerId)
    requires FindIndex(ts, taskId) == -1
      || ts[FindIndex(ts, taskId)].On(b).locked
      || !AreNeighborColumns(ts[FindIndex(ts, taskId)].On(b).column, newColumn)
    ensures AfterMove(ts, taskId, newColumn, b, handle) == ts
    ensures !MoveAccepted(ts, taskId, newColumn, b)
  {
  }

  /**
   * An accepted move sets this board's column to the target and locks it
   * with the new handle; the other board, the task's other fields and all
   * other tasks are unchanged, and the store stays consistent.
   */
  lemma MoveAcceptedEffect(ts: seq<Task>, nextTimer: TimerId, taskId: int, newColumn: string, b: Board)
    requires TasksOk(ts, nextTimer) && MoveAccepted(ts, taskId, newColumn, b)
    ensures var i := FindIndex(ts, taskId);
      var r := AfterMove(ts, taskId, newColumn, b, nextTimer);
      |r| == |ts| && TasksOk(r, nextTimer + 1)
      && ts[i].On(b).lockTimeout == None
      && r[i].On(b) == Lane(newColumn, true, Some(nextTimer))
      && r[i].On(b.Other()) == ts[i].On(b.Other())
      && r[i].id == ts[i].id && r[i].title == ts[i].title && r[i].accountedTime == ts[i].accountedTime
      && (forall k :: 0 <= k < |ts| && k != i ==> r[k] == ts[k])
  {
    var i := FindIndex(ts, taskId);
    var r := AfterMove(ts, taskId, newColumn, b, nextTimer);
    forall k | 0 <= k < |r| ensures r[k].id == k + 1 && TaskOk(r[k], nextTimer + 1) {
      assert ts[k].id == k + 1 && TaskOk(ts[k], nextTimer);
    }
  }

  /** Moves never break the store's invariant, whatever the move. */
  lemma MovePreservesTasksOk(ts: seq<Task>, nextTimer: TimerId, taskId: int, newColumn: string, b: Board)
    requires TasksOk(ts, nextTimer)
    ensures TasksOk(AfterMove(ts, taskId, newColumn, b, nextTimer), nextTimer + 1)
  {
    if MoveAccepted(ts, taskId, newColumn, b) {
      MoveAcceptedEffect(ts, nextTimer, taskId, newColumn, b);
    } else {
      forall k | 0 <= k < |ts| ensures ts[k].id == k + 1 && TaskOk(ts[k], nextTimer + 1) {
        assert ts[k].id == k + 1 && TaskOk(ts[k], nextTimer);
      }
    }
  }

  /**
   * A move can leave COLUMN_ORDER only from "todo": from any other known
   * column an accepted target is itself a column.
   */
  lemma MoveLeavesColumnsOnlyFromTodo(ts: seq<Task>, taskId: int, newColumn: string, b: Board)
    requires MoveAccepted(ts, taskId, newColumn, b)
    requires var c := ts[FindIndex(ts, taskId)].On(b).column; c in COLUMN_ORDER && c != "todo"
    ensures newColumn in COLUMN_ORDER
  {
    var c := ts[FindIndex(ts, taskId)].On(b).column;
    AreNeighborColumnsIsAdjacent(c, newColumn);
  }

  // ---------------------------------------------------------------------------
  // The accounting ledger

  /** `task.accountedTime += minutes`, then raised to 0 if it went negative. */
  function AdjustedTime(accounted: int, minutes: int): (r: int)
    ensures r >= 0 && r >= accounted + minutes
    ensures accounted + minutes >= 0 ==> r == accounted + minutes
    ensures accounted + minutes < 0 ==> r == 0
  {
    var sum := accounted + minutes;
    if sum < 0 then 0 else sum
  }

  /** `adjustTaskTime(taskId, minutes)`; an unknown id changes nothing. */
  function AfterAdjust(ts: seq<Task>, taskId: int, minutes: int): seq<Task> {
    var i := FindIndex(ts, taskId);
    if i == -1 then ts else ts[i := ts[i].(accountedTime := AdjustedTime(ts[i].accountedTime, minutes))]
  }

  /**
   * A booking changes only the booked minutes of the named task, to
   * max(0, old + minutes) with no upper bound; the store stays consistent.
   */
  lemma AdjustEffect(ts: seq<Task>, nextTimer: TimerId, taskId: int, minutes: int)
    requires TasksOk(ts, nextTimer)
    ensures var r := AfterAdjust(ts, taskId, minutes);
      var i := FindIndex(ts, taskId);
      |r| == |ts| && TasksOk(r, nextTimer)
      && (i == -1 ==> r == ts)
      && (i != -1 ==> r[i] == ts[i].(accountedTime := if ts[i].accountedTime + minutes < 0 then 0
                                                     else ts[i].accountedTime + minutes))
      && (forall k :: 0 <= k < |ts| && k != i ==> r[k] == ts[k])
  {
    var r := AfterAdjust(ts, taskId, minutes);
    forall k | 0 <= k < |r| ensures r[k].id == k + 1 && TaskOk(r[k], nextTimer) {
      assert ts[k].id == k + 1 && TaskOk(ts[k], nextTimer);
    }
  }
}
