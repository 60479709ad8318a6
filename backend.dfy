/**
 * The agent backend's own logic (langgraph_database_backend.py): the
 * calculator tool, and the two keyed tables the application keeps in SQLite,
 * `threads` (thread id to title) and `stategraph` (thread id to state data),
 * each with `thread_id` as primary key and so at most one row per id.
 */
module ChatBackend {

  // Calculator tool

  /** What `calculator` returns: the echoed request with its result, or an `{'error': ...}` payload. */
  datatype CalculatorOutput =
    | Computed(firstNum: real, secondNum: real, operation: string, result: real)
    | Failed(error: string)

  /** The operations the calculator dispatches on. */
  predicate IsSupportedOperation(operation: string) {
    operation == "add" || operation == "sub" || operation == "mul" || operation == "div"
  }

  /** `str(e)` for the ZeroDivisionError that Python float division by zero raises. */
  const DivisionByZeroMessage := "float division by zero"

  /**
   * `calculator(first_num, second_num, operation)`, over exact reals: an
   * unknown operation is reported, division by zero is caught and reported,
   * and every other request is answered with its inputs echoed.
   */
  function Calculator(firstNum: real, secondNum: real, operation: string): (out: CalculatorOutput)
    ensures out.Computed? <==> IsSupportedOperation(operation) && !(operation == "div" && secondNum == 0.0)
    ensures out.Computed? ==>
      out.firstNum == firstNum && out.secondNum == secondNum && out.operation == operation
    ensures out.Computed? && operation == "add" ==> out.result - secondNum == firstNum
    ensures out.Computed? && operation == "sub" ==> out.result + secondNum == firstNum
    ensures out.Computed? && operation == "mul" ==> out.result == firstNum * secondNum
    ensures out.Computed? && operation == "div" ==> out.result * secondNum == firstNum
    ensures !IsSupportedOperation(operation) ==> out == Failed("unsupported operation " + operation)
    ensures operation == "div" && secondNum == 0.0 ==> out == Failed(DivisionByZeroMessage)
  {
    if operation == "add" then Computed(firstNum, secondNum, operation, firstNum + secondNum)
    else if operation == "sub" then Computed(firstNum, secondNum, operation, firstNum - secondNum)
    else if operation == "mul" then Computed(firstNum, secondNum, operation, firstNum * secondNum)
    else if operation == "div" then
      if secondNum == 0.0 then Failed(DivisionByZeroMessage)
      else Computed(firstNum, secondNum, operation, firstNum / secondNum)
    else Failed("unsupported operation " + operation)
  }

  // Tables

  predicate NoDuplicates<T(==)>(s: seq<T>) {
    forall i, j :: 0 <= i < j < |s| ==> s[i] != s[j]
  }

  /** `rows` is what a SELECT over a keyed table returns: each row once, in some order. */
  ghost predicate IsRowsOf(rows: seq<(string, string)>, table: map<string, string>) {
    && (forall i :: 0 <= i < |rows| ==> rows[i].0 in table && table[rows[i].0] == rows[i].1)
    && (forall id :: id in table ==> exists i :: 0 <= i < |rows| && rows[i].0 == id)
    && (forall i, j :: 0 <= i < j < |rows| ==> rows[i].0 != rows[j].0)
  }

  class ChatDatabase {
    /** Table `threads`: thread_id -> title. */
    var threads: map<string, string>
    /** Table `stategraph`: thread_id -> state_data. */
    var stategraph: map<string, string>

    /**
     * Loading the module: `init_db` creates the tables if they are missing,
     * keeping whatever the database file held, and then `clear_all_chats`
     * runs, so both tables start empty.
     */
    constructor Load(storedThreads: map<string, string>, storedStates: map<string, string>)
      ensures threads == map[] && stategraph == map[]
    {
      threads := storedThreads;
      stategraph := storedStates;
      new;
      ClearAllChats();
    }

    /** Upsert: insert the row, or overwrite the title of the existing row for the id. */
    method SaveThreadTitle(threadId: string, title: string)
      modifies this`threads
      ensures threads == old(threads)[threadId := title]
    {
      threads := threads[threadId := title];
    }

    /** `SELECT thread_id, title FROM threads` with no ORDER BY: the rows in an unspecified order. */
    method FetchThreadRows() returns (rows: seq<(string, string)>)
      ensures IsRowsOf(rows, threads)
    {
      rows := [];
      var pending := threads.Keys;
      while pending != {}
        invariant pending <= threads.Keys
        invariant forall i :: 0 <= i < |rows| ==>
          rows[i].0 in threads && rows[i].0 !in pending && threads[rows[i].0] == rows[i].1
        invariant forall id :: id in threads && id !in pending ==>
          exists i :: 0 <= i < |rows| && rows[i].0 == id
        invariant forall i, j :: 0 <= i < j < |rows| ==> rows[i].0 != rows[j].0
        decreases |pending|
      {
        var id :| id in pending;
        ghost var before := rows;
        rows := rows + [(id, threads[id])];
        pending := pending - {id};
        assert forall i :: 0 <= i < |before| ==> rows[i] == before[i];
        assert rows[|before|].0 == id;
      }
    }

    /** `dict(rows)`: the whole `threads` table as a map. */
    method GetAllThreadTitles() returns (titles: map<string, string>)
      ensures titles == threads
    {
      var rows := FetchThreadRows();
      titles := map[];
      var i := 0;
      while i < |rows|
        invariant 0 <= i <= |rows|
        invariant forall id :: id in titles <==> exists j :: 0 <= j < i && rows[j].0 == id
        invariant forall j :: 0 <= j < i ==> rows[j].0 in titles && titles[rows[j].0] == rows[j].1
      {
        titles := titles[rows[i].0 := rows[i].1];
        i := i + 1;
      }
      assert titles.Keys == threads.Keys;
    }

    /** `[row[0] for row in rows]`: every thread id once, in the order the rows came. */
    method RetrieveAllThreads() returns (ids: seq<string>)
      ensures NoDuplicates(ids)
      ensures forall id :: id in ids <==> id in threads
    {
      var rows := FetchThreadRows();
      ids := seq(|rows|, i requires 0 <= i < |rows| => rows[i].0);
      forall id | id in threads
        ensures id in ids
      {
        var i :| 0 <= i < |rows| && rows[i].0 == id;
        assert ids[i] == id;
      }
    }

    /** `DELETE FROM stategraph WHERE thread_id = ?`. */
    method ClearChat(threadId: string)
      modifies this`stategraph
      ensures stategraph == old(stategraph) - {threadId}
    {
      stategraph := stategraph - {threadId};
    }

    /** `DELETE FROM stategraph` and `DELETE FROM threads`. */
    method ClearAllChats()
      modifies this
      ensures threads == map[] && stategraph == map[]
    {
      stategraph := map[];
      threads := map[];
    }
  }
}
