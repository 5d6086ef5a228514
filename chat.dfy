/**
 * The colleague chat: choosing which task a new request is about and which
 * column it asks for, and checking a request the player marks as done.
 * `Math.random()` is an argument: a Draw is a fraction num/den in [0, 1), and
 * `Math.floor(Math.random() * n)` is Pick(n, draw).
 */
module Chat {
  import opened Wrappers
  import opened Columns
  import opened Tasks

  /** What a request asks: move task `taskId` on `boardId` into `targetColumn`. */
  datatype TaskData = TaskData(taskId: int, boardId: Board, targetColumn: string)

  /** A request in the chat history; `template` is which of the phrasings was shown. */
  datatype ChatMessage = ChatMessage(template: nat, data: TaskData, completed: bool)

  /** Number of phrasings a request is worded in. */
  const TEMPLATE_COUNT: nat := 5

  /** Minutes that must be booked on a task before a request about it counts as done. */
  const MIN_BOOKED_MINUTES: int := 15

  datatype Fraction = Fraction(num: nat, den: nat)

  /** A value of `Math.random()`: a fraction in [0, 1). */
  type Draw = f: Fraction | f.num < f.den witness Fraction(0, 1)

  /** A quotient stays below n when the dividend stays below n times the divisor. */
  lemma QuotientBelow(p: nat, d: nat, n: nat)
    requires d > 0 && p < n * d
    ensures p / d < n
  {
    var q := p / d;
    assert q * d <= p;
    assert (n - q) * d > 0;
  }

  /** `Math.floor(r * n)` for the draw r. */
  function Pick(n: nat, r: Draw): (k: nat)
    ensures n > 0 ==> k < n
  {
    if n > 0 then
      assert r.num * n < n * r.den by {
        assert (r.den - r.num) * n > 0;
      }
      QuotientBelow(r.num * n, r.den, n);
      r.num * n / r.den
    else 0
  }

  /** Multiplying by a positive n and dividing by it again gives back k. */
  lemma MulDivCancel(k: nat, n: nat)
    requires n > 0
    ensures k * n / n == k
  {
    var q, r := k * n / n, k * n % n;
    assert k * n == q * n + r && 0 <= r < n;
    assert (k - q) * n == r;
    ZeroFactor(k - q, n);
  }

  /** An integer whose multiple by a positive n lies in [0, n) is 0. */
  lemma ZeroFactor(x: int, n: nat)
    requires n > 0 && 0 <= x * n < n
    ensures x == 0
  {
  }

  /** Every index below n is drawn: the draw k/n picks k. */
  lemma PickReaches(n: nat, k: nat)
    requires k < n
    ensures Pick(n, Fraction(k, n)) == k
  {
    MulDivCancel(k, n);
  }

  // ---------------------------------------------------------------------------
  // Choosing a request

  /** The filter of `sendRandomTaskMessage`: not in "done" on at least one board. */
  predicate NotDone(t: Task) {
    t.board1.column != "done" || t.board2.column != "done"
  }

  /** The tasks a request may be about, in store order. */
  function Movable(ts: seq<Task>): (r: seq<Task>)
    ensures |r| <= |ts|
    ensures forall t :: t in r ==> t in ts && NotDone(t)
    ensures forall t :: t in ts && NotDone(t) ==> t in r
  {
    if |ts| == 0 then []
    else
      var rest := Movable(ts[1..]);
      assert forall t :: t in ts && t != ts[0] ==> t in ts[1..];
      if NotDone(ts[0]) then [ts[0]] + rest else rest
  }

  /** The filter keeps the store's order: extending the store by one task extends its movable list at the end. */
  lemma {:induction false} MovableAppend(ts: seq<Task>, t: Task)
    ensures Movable(ts + [t]) == Movable(ts) + (if NotDone(t) then [t] else [])
  {
    if |ts| > 0 {
      assert (ts + [t])[1..] == ts[1..] + [t];
      MovableAppend(ts[1..], t);
    } else {
      assert ts + [t] == [t];
    }
  }

  /** While no task is done on both boards, every task may be asked about. */
  lemma {:induction false} MovableWhileNoneDone(ts: seq<Task>)
    requires forall k :: 0 <= k < |ts| ==> NotDone(ts[k])
    ensures Movable(ts) == ts
  {
    if |ts| > 0 {
      MovableWhileNoneDone(ts[1..]);
    }
  }

  /** The board a request refers to: the one where the task is further behind, board 1 on a tie. */
  function ChooseBoard(t: Task): Board {
    if ColumnIndex(t.board1.column) <= ColumnIndex(t.board2.column) then Board1 else Board2
  }

  /** The request about task t, or None when its column on the chosen board has no successor. */
  function RequestFor(t: Task): Option<TaskData> {
    var b := ChooseBoard(t);
    match GetNextColumn(t.On(b).column)
    case None => None
    case Some(next) => Some(TaskData(t.id, b, next))
  }

  /**
   * A request names the task, the board where it lags (board 1 on a tie),
   * and the column right after its current one there, which one legal move
   * reaches; only a task that is not done on that board gets a request.
   */
  lemma RequestForSpec(t: Task)
    ensures RequestFor(t).Some? <==> var c := t.On(ChooseBoard(t)).column; c in COLUMN_ORDER && c != "done"
    ensures RequestFor(t).Some? ==>
      var d := RequestFor(t).value;
      var current := t.On(d.boardId).column;
      d.taskId == t.id
      && (d.boardId == Board1 <==> ColumnIndex(t.board1.column) <= ColumnIndex(t.board2.column))
      && ColumnIndex(current) <= ColumnIndex(t.On(d.boardId.Other()).column)
      && ColumnIndex(d.targetColumn) == ColumnIndex(current) + 1
      && AreNeighborColumns(current, d.targetColumn)
      && NotDone(t)
  {
  }

  /**
   * When both columns of a task are real columns, a task that is not done
   * on both boards always yields a request.
   */
  lemma RequestForUnfinishedTask(t: Task)
    requires t.board1.column in COLUMN_ORDER && t.board2.column in COLUMN_ORDER
    requires NotDone(t)
    ensures RequestFor(t).Some?
  {
    ColumnIndexAt(4);
    var i1, i2 := ColumnIndex(t.board1.column), ColumnIndex(t.board2.column);
    assert COLUMN_ORDER[i1] == t.board1.column && COLUMN_ORDER[i2] == t.board2.column;
    if ChooseBoard(t) == Board1 {
      assert t.board1.column != "done";
    } else {
      assert t.board2.column != "done";
    }
  }

  /** `sendRandomTaskMessage` with its two random draws: the task, then the phrasing. */
  function NewMessage(ts: seq<Task>, taskDraw: Draw, templateDraw: Draw): Option<ChatMessage> {
    var movable := Movable(ts);
    if |movable| == 0 then None
    else
      var t := movable[Pick(|movable|, taskDraw)];
      match RequestFor(t)
      case None => None
      case Some(data) => Some(ChatMessage(Pick(TEMPLATE_COUNT, templateDraw), data, false))
  }

  /**
   * A new request is about a task of the store that is not done on both
   * boards, is exactly that task's RequestFor, uses one of the phrasings and
   * starts not completed; when every task is done there is none.
   */
  lemma NewMessageSpec(ts: seq<Task>, taskDraw: Draw, templateDraw: Draw)
    ensures Movable(ts) == [] ==> NewMessage(ts, taskDraw, templateDraw) == None
    ensures NewMessage(ts, taskDraw, templateDraw).Some? ==>
      var m := NewMessage(ts, taskDraw, templateDraw).value;
      (exists t :: t in ts && NotDone(t) && RequestFor(t) == Some(m.data))
      && m.template < TEMPLATE_COUNT && !m.completed
  {
    var movable := Movable(ts);
    if |movable| > 0 {
      var t := movable[Pick(|movable|, taskDraw)];
      assert t in movable;
    }
  }

  /**
   * Every movable task and every phrasing can be drawn: the draws k/n and
   * j/5, with n the number of movable tasks, give the request about the k-th
   * movable task in phrasing j, or none when that task has no next column.
   */
  lemma NewMessageReaches(ts: seq<Task>, k: nat, j: nat)
    requires k < |Movable(ts)| && j < TEMPLATE_COUNT
    ensures var t := Movable(ts)[k];
      NewMessage(ts, Fraction(k, |Movable(ts)|), Fraction(j, TEMPLATE_COUNT))
      == if RequestFor(t).Some? then Some(ChatMessage(j, RequestFor(t).value, false)) else None
  {
    PickReaches(|Movable(ts)|, k);
    PickReaches(TEMPLATE_COUNT, j);
  }

  // ---------------------------------------------------------------------------
  // Marking a request as done

  /** What `markMessageAsDone` reports. */
  datatype DoneResult = UnknownTask | WrongColumn(current: string) | TimeNotBooked(booked: int) | Completed

  /** The checks of `markMessageAsDone`: the column first, then the booked time. */
  function CheckDone(ts: seq<Task>, data: TaskData): DoneResult {
    var i := FindIndex(ts, data.taskId);
    if i == -1 then UnknownTask
    else
      var current := ts[i].On(data.boardId).column;
      if current != data.targetColumn then WrongColumn(current)
      else if ts[i].accountedTime < MIN_BOOKED_MINUTES then TimeNotBooked(ts[i].accountedTime)
      else Completed
  }

  /**
   * A request is done exactly when its task sits in the target column on the
   * named board and has at least 15 minutes booked; a wrong column is
   * reported before missing time, each with the current value.
   */
  lemma CheckDoneSpec(ts: seq<Task>, data: TaskData)
    ensures var i := FindIndex(ts, data.taskId);
      && (CheckDone(ts, data) == UnknownTask <==> i == -1)
      && (CheckDone(ts, data) == Completed <==>
            i != -1 && ts[i].On(data.boardId).column == data.targetColumn
            && ts[i].accountedTime >= MIN_BOOKED_MINUTES)
      && (CheckDone(ts, data).WrongColumn? <==> i != -1 && ts[i].On(data.boardId).column != data.targetColumn)
      && (CheckDone(ts, data).WrongColumn? ==> CheckDone(ts, data).current == ts[i].On(data.boardId).column)
      && (CheckDone(ts, data).TimeNotBooked? <==>
            i != -1 && ts[i].On(data.boardId).column == data.targetColumn
            && ts[i].accountedTime < MIN_BOOKED_MINUTES)
      && (CheckDone(ts, data).TimeNotBooked? ==> CheckDone(ts, data).booked == ts[i].accountedTime)
  {
  }

  /** The chat history after the player confirms request k. */
  function AfterMarkDone(msgs: seq<ChatMessage>, ts: seq<Task>, k: nat): seq<ChatMessage>
    requires k < |msgs|
  {
    if CheckDone(ts, msgs[k].data) == Completed then msgs[k := msgs[k].(completed := true)] else msgs
  }

  /**
   * Confirming changes at most the completed mark of that one request, never
   * clears a mark, and a second confirmation changes nothing more.
   */
  lemma MarkDoneSpec(msgs: seq<ChatMessage>, ts: seq<Task>, k: nat)
    requires k < |msgs|
    ensures var r := AfterMarkDone(msgs, ts, k);
      |r| == |msgs|
      && (forall j :: 0 <= j < |msgs| && j != k ==> r[j] == msgs[j])
      && r[k].data == msgs[k].data && r[k].template == msgs[k].template
      && r[k].completed == (msgs[k].completed || CheckDone(ts, msgs[k].data) == Completed)
      && AfterMarkDone(r, ts, k) == r
  {
  }
}
