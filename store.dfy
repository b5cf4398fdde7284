/**
 * The persisted task file and the four operations that load it, change it in
 * memory and save it back: add_task, mark_task, delete_task and update_task.
 */
module TaskStore {
  import opened Options
  import opened Text
  import opened Tasks

  /** How a Python call ends: it returns a value, or `json.load` raises on a malformed file. */
  datatype Completion<T> = Returned(value: T) | Raised

  /**
   * The file `tasks.json`. `file` is the task list it holds when it parses;
   * a missing file is an empty, well-formed one. `wellFormed` is false when the
   * file does not parse, so that every load raises. `saves` counts whole-file
   * writes, so that "does not save" can be told apart from "saves the same list".
   */
  class Store {
    var file: seq<Task>
    var wellFormed: bool
    ghost var saves: nat

    constructor (file: seq<Task>, wellFormed: bool)
      ensures this.file == file && this.wellFormed == wellFormed && saves == 0
    {
      this.file := file;
      this.wellFormed := wellFormed;
      saves := 0;
    }

    /** load_tasks: the whole stored list, or a decoding failure. */
    method Load() returns (r: Option<seq<Task>>)
      ensures r.Some? <==> wellFormed
      ensures r.Some? ==> r.value == file
    {
      if wellFormed {
        r := Some(file);
      } else {
        r := None;
      }
    }

    /** save_tasks: overwrite the whole file with `tasks`. */
    method Save(tasks: seq<Task>)
      modifies this
      ensures file == tasks && wellFormed && saves == old(saves) + 1
    {
      file := tasks;
      wellFormed := true;
      saves := saves + 1;
    }
  }

  /**
   * add_task: a description that is blank after stripping is refused before
   * the file is read; otherwise the stripped description is stored last under
   * id max+1 (1 for an empty store), as a to-do task created and updated `now`.
   */
  method AddTask(store: Store, description: string, now: Timestamp) returns (r: Completion<Option<int>>)
    modifies store
    ensures Strip(description) == [] ==> r == Returned(None) && unchanged(store)
    ensures Strip(description) != [] && !old(store.wellFormed) ==> r == Raised && unchanged(store)
    ensures Strip(description) != [] && old(store.wellFormed) ==>
      r == Returned(Some(NextId(old(store.file)))) &&
      store.file == Appended(old(store.file), Strip(description), now) &&
      store.wellFormed && store.saves == old(store.saves) + 1
  {
    var d := Strip(description);
    if d == [] {
      return Returned(None);
    }
    var loaded := store.Load();
    if loaded.None? {
      return Raised;
    }
    var tasks := loaded.value;
    var newId;
    if tasks != [] {
      newId := MaxId(tasks) + 1;
    } else {
      newId := 1;
    }
    var task := Task(newId, d, ToDo, now, now);
    tasks := tasks + [task];
    store.Save(tasks);
    return Returned(Some(newId));
  }

  /**
   * mark_task: scan for the first task with the id; if there is one, set its
   * status and updatedAt and save, else report false and leave the file alone.
   */
  method MarkTask(store: Store, id: int, status: Status, now: Timestamp) returns (r: Completion<bool>)
    modifies store
    ensures !old(store.wellFormed) ==> r == Raised && unchanged(store)
    ensures old(store.wellFormed) ==> r == Returned(HasId(old(store.file), id))
    ensures r == Returned(false) ==> unchanged(store)
    ensures r == Returned(true) ==>
      store.file == ApplyFirst(old(store.file), id, NewStatus(status), now) &&
      store.wellFormed && store.saves == old(store.saves) + 1
  {
    var loaded := store.Load();
    if loaded.None? {
      return Raised;
    }
    var tasks := loaded.value;
    var i := 0;
    while i < |tasks|
      invariant 0 <= i <= |tasks|
      invariant forall j :: 0 <= j < i ==> tasks[j].id != id
      invariant unchanged(store)
    {
      if tasks[i].id == id {
        FirstMatch(tasks, id, i);
        ApplyFirstAt(tasks, id, NewStatus(status), now);
        var task := tasks[i];
        tasks := tasks[i := task.(status := status, updatedAt := now)];
        store.Save(tasks);
        return Returned(true);
      }
      i := i + 1;
    }
    return Returned(false);
  }

  /**
   * delete_task: keep the tasks whose id differs; if that removed nothing,
   * report false without saving, else save the filtered list.
   */
  method DeleteTask(store: Store, id: int) returns (r: Completion<bool>)
    modifies store
    ensures !old(store.wellFormed) ==> r == Raised && unchanged(store)
    ensures old(store.wellFormed) ==> r == Returned(HasId(old(store.file), id))
    ensures r == Returned(false) ==> unchanged(store)
    ensures r == Returned(true) ==>
      store.file == WithoutId(old(store.file), id) &&
      store.wellFormed && store.saves == old(store.saves) + 1
  {
    var loaded := store.Load();
    if loaded.None? {
      return Raised;
    }
    var tasks := loaded.value;
    var newTasks := WithoutId(tasks, id);
    WithoutIdLength(tasks, id);
    if |newTasks| == |tasks| {
      return Returned(false);
    }
    store.Save(newTasks);
    return Returned(true);
  }

  /**
   * update_task: a description that is blank after stripping is refused before
   * the file is read; otherwise the first task with the id gets the stripped
   * description and a new updatedAt, or false is reported if there is none.
   */
  method UpdateTask(store: Store, id: int, newDescription: string, now: Timestamp) returns (r: Completion<bool>)
    modifies store
    ensures Strip(newDescription) == [] ==> r == Returned(false) && unchanged(store)
    ensures Strip(newDescription) != [] && !old(store.wellFormed) ==> r == Raised && unchanged(store)
    ensures Strip(newDescription) != [] && old(store.wellFormed) ==> r == Returned(HasId(old(store.file), id))
    ensures r == Returned(false) ==> unchanged(store)
    ensures r == Returned(true) ==>
      store.file == ApplyFirst(old(store.file), id, NewDescription(Strip(newDescription)), now) &&
      store.wellFormed && store.saves == old(store.saves) + 1
  {
    var d := Strip(newDescription);
    if d == [] {
      return Returned(false);
    }
    var loaded := store.Load();
    if loaded.None? {
      return Raised;
    }
    var tasks := loaded.value;
    var i := 0;
    while i < |tasks|
      invariant 0 <= i <= |tasks|
      invariant forall j :: 0 <= j < i ==> tasks[j].id != id
      invariant unchanged(store)
    {
      if tasks[i].id == id {
        FirstMatch(tasks, id, i);
        ApplyFirstAt(tasks, id, NewDescription(d), now);
        var task := tasks[i];
        tasks := tasks[i := task.(description := d, updatedAt := now)];
        store.Save(tasks);
        return Returned(true);
      }
      i := i + 1;
    }
    return Returned(false);
  }
}
