/**
 * The command-line entry point `main(argv)`: the argument guards that decide
 * whether an operation runs, the `list` branch, and the dispatch to the store
 * operations. What main prints is modelled as an Output value.
 */
module Cli {
  import opened Options
  import opened Text
  import opened Tasks
  import opened TaskStore

  /** The usage lines main prints instead of running a command. */
  datatype UsageLine =
    | TopLevel
    | AddUsage
    | UpdateUsage
    | UpdateIdNotNumeric
    | DeleteUsage
    | DeleteIdNotNumeric
    | MarkUsage(target: Status)
    | MarkIdNotNumeric(target: Status)
    | ListUsage

  /** What one invocation prints. */
  datatype Output =
    | PrintUsage(line: UsageLine)
    | Help
    | TaskAdded(id: int)
    | TaskUpdated(id: int)
    | TaskDeleted(id: int)
    | TaskMarked(id: int, status: Status)
    | NoSuchTask(id: int)
    | Listing(lines: seq<string>)
    | UnknownCommand(name: string)

  /** The outputs that report a change to the file. */
  predicate Mutation(o: Output) {
    o.TaskAdded? || o.TaskUpdated? || o.TaskDeleted? || o.TaskMarked?
  }

  /** What main decides to do once the argument guards have run. */
  datatype Command =
    | Reject(usage: UsageLine)
    | ShowHelp
    | Add(text: string)
    | Update(id: int, description: string)
    | Delete(id: int)
    | Mark(id: int, status: Status)
    | List(filter: Option<string>)
    | Unknown(name: string)

  /** The guards of a mark command: an operand is needed and must be an integer. */
  function ParseMark(argv: seq<string>, status: Status): (c: Command)
    ensures c.Mark? <==> |argv| >= 3 && ParseInt(argv[2]).Some?
    ensures c.Mark? ==> c.id == ParseInt(argv[2]).value && c.status == status
    ensures !c.Mark? ==> c == Reject(MarkUsage(status)) || c == Reject(MarkIdNotNumeric(status))
  {
    if |argv| < 3 then Reject(MarkUsage(status))
    else match ParseInt(argv[2])
      case None => Reject(MarkIdNotNumeric(status))
      case Some(id) => Mark(id, status)
  }

  /** The guards of main, in its order; argv[0] is the program name. */
  function Parse(argv: seq<string>): (c: Command)
    ensures c.Update? ==> |argv| >= 4 && ParseInt(argv[2]) == Some(c.id) &&
                          c.description == Strip(argv[3]) && c.description != []
    ensures (c.Delete? || c.Mark?) ==> |argv| >= 3 && ParseInt(argv[2]) == Some(c.id)
    ensures c.Add? ==> |argv| >= 3 && c.text == argv[2]
    ensures c.Unknown? ==> |argv| >= 2 && c.name == argv[1]
    ensures c.ShowHelp? ==> |argv| >= 2 && argv[1] in {"help", "-h", "--help"}
    ensures c.Add? ==> argv[1] == "add"
    ensures c.Update? ==> argv[1] == "update"
    ensures c.Delete? ==> argv[1] == "delete"
    ensures c.Mark? ==> c.status != ToDo && argv[1] == (if c.status == Done then "mark-done" else "mark-in-progress")
    ensures c.List? ==> |argv| >= 2 && argv[1] == "list" && c.filter == (if |argv| >= 3 then Some(argv[2]) else None)
    ensures c.Unknown? ==>
      argv[1] !in {"help", "-h", "--help", "add", "update", "delete", "mark-in-progress", "mark-done", "list"}
  {
    if |argv| < 2 then Reject(TopLevel)
    else
      var command := argv[1];
      if command == "help" || command == "-h" || command == "--help" then ShowHelp
      else if command == "add" then
        if |argv| < 3 then Reject(AddUsage) else Add(argv[2])
      else if command == "update" then
        if |argv| < 4 then Reject(UpdateUsage)
        else match ParseInt(argv[2])
          case None => Reject(UpdateIdNotNumeric)
          case Some(id) =>
            var description := Strip(argv[3]);
            if description == [] then Reject(UpdateUsage) else Update(id, description)
      else if command == "delete" then
        if |argv| < 3 then Reject(DeleteUsage)
        else match ParseInt(argv[2])
          case None => Reject(DeleteIdNotNumeric)
          case Some(id) => Delete(id)
      else if command == "mark-in-progress" then ParseMark(argv, InProgress)
      else if command == "mark-done" then ParseMark(argv, Done)
      else if command == "list" then List(if |argv| >= 3 then Some(argv[2]) else None)
      else Unknown(command)
  }

  /** The first two guards of main: no command, or a command without its operand, ends in a usage line. */
  lemma ParseGuardsArity(argv: seq<string>)
    ensures |argv| < 2 ==> Parse(argv) == Reject(TopLevel)
    ensures |argv| == 2 && argv[1] == "add" ==> Parse(argv) == Reject(AddUsage)
    ensures |argv| == 2 && argv[1] == "update" ==> Parse(argv) == Reject(UpdateUsage)
    ensures |argv| == 2 && argv[1] == "delete" ==> Parse(argv) == Reject(DeleteUsage)
    ensures |argv| == 2 && argv[1] == "mark-in-progress" ==> Parse(argv) == Reject(MarkUsage(InProgress))
    ensures |argv| == 2 && argv[1] == "mark-done" ==> Parse(argv) == Reject(MarkUsage(Done))
    ensures |argv| == 3 && argv[1] == "update" ==> Parse(argv) == Reject(UpdateUsage)
  {
  }

  /** The id guard of main: an id word that `int()` refuses ends in the "must be a number" usage line. */
  lemma ParseGuardsId(argv: seq<string>)
    requires |argv| >= 3 && ParseInt(argv[2]).None?
    ensures argv[1] == "delete" ==> Parse(argv) == Reject(DeleteIdNotNumeric)
    ensures argv[1] == "mark-in-progress" ==> Parse(argv) == Reject(MarkIdNotNumeric(InProgress))
    ensures argv[1] == "mark-done" ==> Parse(argv) == Reject(MarkIdNotNumeric(Done))
    ensures |argv| >= 4 && argv[1] == "update" ==> Parse(argv) == Reject(UpdateIdNotNumeric)
  {
  }

  /** The description guard of main: a blank update description ends in the update usage line. */
  lemma ParseGuardsDescription(argv: seq<string>)
    requires |argv| >= 4 && argv[1] == "update" && ParseInt(argv[2]).Some? && AllSpace(argv[3])
    ensures Parse(argv) == Reject(UpdateUsage)
  {
    StripBlank(argv[3]);
  }

  /**
   * The dispatch of main: a command word whose operands pass the guards
   * becomes the operation of that word, with the id `int()` read and, for
   * update, the stripped description.
   */
  lemma ParseDispatch(argv: seq<string>)
    ensures |argv| >= 2 && argv[1] in {"help", "-h", "--help"} ==> Parse(argv) == ShowHelp
    ensures |argv| >= 3 && argv[1] == "add" ==> Parse(argv) == Add(argv[2])
    ensures |argv| >= 4 && argv[1] == "update" && ParseInt(argv[2]).Some? && Strip(argv[3]) != [] ==>
      Parse(argv) == Update(ParseInt(argv[2]).value, Strip(argv[3]))
    ensures |argv| >= 3 && argv[1] == "delete" && ParseInt(argv[2]).Some? ==>
      Parse(argv) == Delete(ParseInt(argv[2]).value)
    ensures |argv| >= 3 && argv[1] == "mark-in-progress" && ParseInt(argv[2]).Some? ==>
      Parse(argv) == Mark(ParseInt(argv[2]).value, InProgress)
    ensures |argv| >= 3 && argv[1] == "mark-done" && ParseInt(argv[2]).Some? ==>
      Parse(argv) == Mark(ParseInt(argv[2]).value, Done)
    ensures |argv| >= 2 && argv[1] == "list" ==> Parse(argv) == List(if |argv| >= 3 then Some(argv[2]) else None)
    ensures |argv| >= 2 &&
            argv[1] !in {"help", "-h", "--help", "add", "update", "delete", "mark-in-progress", "mark-done", "list"}
            ==> Parse(argv) == Unknown(argv[1])
  {
  }

  /** `delete 1` deletes id 1; `delete one` is refused by the id guard. */
  lemma ParseExampleDelete()
    ensures Parse(["task-cli", "delete", "1"]) == Delete(1)
    ensures Parse(["task-cli", "delete", "one"]) == Reject(DeleteIdNotNumeric)
  {
    ParseDigits("1");
    StripUnpadded("one");
    assert !IsDigit("one"[0]);
    var argv := ["task-cli", "delete", "1"];
    assert argv[2] == "1";
    ParseDispatch(argv);
    var bad := ["task-cli", "delete", "one"];
    assert bad[2] == "one";
    ParseGuardsId(bad);
  }

  /** The id word is read through `int()`, so surrounding whitespace is ignored. */
  lemma ParseExampleMark()
    ensures Parse(["task-cli", "mark-done", " 2 "]) == Mark(2, Done)
  {
    assert Strip(" 2 ") == "2" by {
      assert TextStart(" 2 ") == 1;
      assert TextEnd(" 2 ", 1) == 2;
    }
    ParseDigits("2");
    assert ParseInt(" 2 ") == Some(2);
    var argv := ["task-cli", "mark-done", " 2 "];
    assert argv[2] == " 2 ";
    ParseDispatch(argv);
  }

  /** The update description reaches update_task stripped. */
  lemma ParseExampleUpdate()
    ensures Parse(["task-cli", "update", "3", " milk "]) == Update(3, "milk")
  {
    ParseDigits("3");
    assert Strip(" milk ") == "milk" by {
      assert TextStart(" milk ") == 1;
      assert TextEnd(" milk ", 1) == 5;
    }
    var argv := ["task-cli", "update", "3", " milk "];
    assert argv[2] == "3" && argv[3] == " milk ";
    ParseDispatch(argv);
  }

  /** Whether running the command reads the file (and so may raise on a malformed one). */
  predicate LoadsStore(c: Command) {
    (c.Add? && Strip(c.text) != []) || c.Update? || c.Delete? || c.Mark? || c.List?
  }

  /** The status a valid `list` filter word stands for; no word means no filter. */
  function StatusFilter(filter: Option<string>): Option<Status> {
    if filter.None? then None else ParseStatus(filter.value)
  }

  /** A valid filter word: none, or one of the three status spellings. */
  predicate ValidFilter(filter: Option<string>) {
    filter.None? || ParseStatus(filter.value).Some?
  }

  /** Comparing the status spelling with a valid filter word is comparing statuses. */
  lemma FilterWordMatches(t: Task, filter: Option<string>)
    requires ValidFilter(filter)
    ensures filter.None? || StatusName(t.status) == filter.value <==> Shown(t, StatusFilter(filter))
  {
  }

  /** One more task of the loop prints one more line exactly when the filter admits it. */
  lemma ListStep(ts: seq<Task>, i: nat, filter: Option<Status>)
    requires i < |ts|
    ensures Render(Selected(ts[..i + 1], filter)) ==
      Render(Selected(ts[..i], filter)) + (if Shown(ts[i], filter) then [FormatLine(ts[i])] else [])
  {
    assert ts[..i + 1] == ts[..i] + [ts[i]];
    SelectedAppend(ts[..i], [ts[i]], filter);
    var a := Selected(ts[..i], filter);
    if Shown(ts[i], filter) {
      assert Selected([ts[i]], filter) == [ts[i]];
      RenderAppend(a, ts[i]);
    } else {
      assert Selected([ts[i]], filter) == [];
      assert a + [] == a;
    }
  }

  lemma RenderAppend(a: seq<Task>, t: Task)
    ensures Render(a + [t]) == Render(a) + [FormatLine(t)]
  {
    var r := Render(a) + [FormatLine(t)];
    assert forall k :: 0 <= k < |a| ==> (a + [t])[k] == a[k];
    assert forall k :: 0 <= k < |a| + 1 ==> Render(a + [t])[k] == r[k];
  }

  /**
   * The `list` branch: the file is read first, then the filter word is
   * checked, then one line is printed per task the filter admits, in stored
   * order. It never saves.
   */
  method ListTasks(store: Store, filter: Option<string>) returns (r: Completion<Output>)
    ensures !store.wellFormed ==> r == Raised
    ensures store.wellFormed && !ValidFilter(filter) ==> r == Returned(PrintUsage(ListUsage))
    ensures store.wellFormed && ValidFilter(filter) ==>
      r == Returned(Listing(Render(Selected(store.file, StatusFilter(filter)))))
    ensures store.wellFormed && filter.None? ==> r == Returned(Listing(Render(store.file)))
  {
    var loaded := store.Load();
    if loaded.None? {
      return Raised;
    }
    var tasks := loaded.value;
    if filter.Some? && ParseStatus(filter.value).None? {
      return Returned(PrintUsage(ListUsage));
    }
    ghost var selected := StatusFilter(filter);
    var lines := [];
    var i := 0;
    while i < |tasks|
      invariant 0 <= i <= |tasks|
      invariant lines == Render(Selected(tasks[..i], selected))
    {
      var t := tasks[i];
      FilterWordMatches(t, filter);
      ListStep(tasks, i, selected);
      if filter.None? || StatusName(t.status) == filter.value {
        lines := lines + [FormatLine(t)];
      }
      i := i + 1;
    }
    assert tasks[..i] == tasks;
    if filter.None? {
      SelectedAll(tasks);
    }
    return Returned(Listing(lines));
  }

  /** The `add` branch of main: a blank description prints the add usage line. */
  method AddCommand(store: Store, text: string, now: Timestamp) returns (r: Completion<Output>)
    modifies store
    ensures Strip(text) == [] ==> r == Returned(PrintUsage(AddUsage)) && unchanged(store)
    ensures Strip(text) != [] && !old(store.wellFormed) ==> r == Raised && unchanged(store)
    ensures Strip(text) != [] && old(store.wellFormed) ==>
      r == Returned(TaskAdded(NextId(old(store.file)))) &&
      store.file == Appended(old(store.file), Strip(text), now) &&
      store.wellFormed && store.saves == old(store.saves) + 1
    ensures UniqueIds(old(store.file)) ==> UniqueIds(store.file)
  {
    if UniqueIds(store.file) {
      AppendedKeepsUnique(store.file, Strip(text), now);
    }
    var added := AddTask(store, text, now);
    match added
    case Raised => r := Raised;
    case Returned(None) => r := Returned(PrintUsage(AddUsage));
    case Returned(Some(id)) => r := Returned(TaskAdded(id));
  }

  /** The `update` branch of main once its guards passed: success or "no such task". */
  method UpdateCommand(store: Store, id: int, description: string, now: Timestamp) returns (r: Completion<Output>)
    requires description != [] && Strip(description) == description
    modifies store
    ensures !old(store.wellFormed) ==> r == Raised && unchanged(store)
    ensures old(store.wellFormed) && !HasId(old(store.file), id) ==> r == Returned(NoSuchTask(id)) && unchanged(store)
    ensures old(store.wellFormed) && HasId(old(store.file), id) ==>
      r == Returned(TaskUpdated(id)) &&
      store.file == ApplyFirst(old(store.file), id, NewDescription(description), now) &&
      store.wellFormed && store.saves == old(store.saves) + 1
    ensures UniqueIds(old(store.file)) ==> UniqueIds(store.file)
  {
    if UniqueIds(store.file) {
      ApplyFirstKeepsUnique(store.file, id, NewDescription(description), now);
    }
    var updated := UpdateTask(store, id, description, now);
    match updated
    case Raised => r := Raised;
    case Returned(found) => r := Returned(if found then TaskUpdated(id) else NoSuchTask(id));
  }

  /** The `delete` branch of main once its guards passed: success or "no such task". */
  method DeleteCommand(store: Store, id: int) returns (r: Completion<Output>)
    modifies store
    ensures !old(store.wellFormed) ==> r == Raised && unchanged(store)
    ensures old(store.wellFormed) && !HasId(old(store.file), id) ==> r == Returned(NoSuchTask(id)) && unchanged(store)
    ensures old(store.wellFormed) && HasId(old(store.file), id) ==>
      r == Returned(TaskDeleted(id)) &&
      store.file == WithoutId(old(store.file), id) &&
      store.wellFormed && store.saves == old(store.saves) + 1
    ensures UniqueIds(old(store.file)) ==> UniqueIds(store.file)
  {
    if UniqueIds(store.file) {
      WithoutIdKeepsUnique(store.file, id);
    }
    var deleted := DeleteTask(store, id);
    match deleted
    case Raised => r := Raised;
    case Returned(found) => r := Returned(if found then TaskDeleted(id) else NoSuchTask(id));
  }

  /** The `mark-in-progress` and `mark-done` branches of main once their guards passed. */
  method MarkCommand(store: Store, id: int, status: Status, now: Timestamp) returns (r: Completion<Output>)
    modifies store
    ensures !old(store.wellFormed) ==> r == Raised && unchanged(store)
    ensures old(store.wellFormed) && !HasId(old(store.file), id) ==> r == Returned(NoSuchTask(id)) && unchanged(store)
    ensures old(store.wellFormed) && HasId(old(store.file), id) ==>
      r == Returned(TaskMarked(id, status)) &&
      store.file == ApplyFirst(old(store.file), id, NewStatus(status), now) &&
      store.wellFormed && store.saves == old(store.saves) + 1
    ensures UniqueIds(old(store.file)) ==> UniqueIds(store.file)
  {
    if UniqueIds(store.file) {
      ApplyFirstKeepsUnique(store.file, id, NewStatus(status), now);
    }
    var marked := MarkTask(store, id, status, now);
    match marked
    case Raised => r := Raised;
    case Returned(found) => r := Returned(if found then TaskMarked(id, status) else NoSuchTask(id));
  }

  /**
   * The part of main after the guards: run the one operation the command
   * names and print its outcome. The update description arrives stripped.
   */
  method Execute(store: Store, command: Command, now: Timestamp) returns (r: Completion<Output>)
    requires command.Update? ==> command.description != [] && Strip(command.description) == command.description
    modifies store
    ensures command.Reject? ==> r == Returned(PrintUsage(command.usage)) && unchanged(store)
    ensures command.Add? && Strip(command.text) == [] ==> r == Returned(PrintUsage(AddUsage)) && unchanged(store)
    ensures command.Add? && Strip(command.text) != [] && old(store.wellFormed) ==>
      r == Returned(TaskAdded(NextId(old(store.file)))) &&
      store.file == Appended(old(store.file), Strip(command.text), now) &&
      store.wellFormed && store.saves == old(store.saves) + 1
    ensures command.Update? && old(store.wellFormed) ==>
      var found := HasId(old(store.file), command.id);
      r == Returned(if found then TaskUpdated(command.id) else NoSuchTask(command.id)) &&
      (found ==> store.file == ApplyFirst(old(store.file), command.id, NewDescription(command.description), now) &&
                 store.wellFormed && store.saves == old(store.saves) + 1)
    ensures command.Delete? && old(store.wellFormed) ==>
      var found := HasId(old(store.file), command.id);
      r == Returned(if found then TaskDeleted(command.id) else NoSuchTask(command.id)) &&
      (found ==> store.file == WithoutId(old(store.file), command.id) &&
                 store.wellFormed && store.saves == old(store.saves) + 1)
    ensures command.Mark? && old(store.wellFormed) ==>
      var found := HasId(old(store.file), command.id);
      r == Returned(if found then TaskMarked(command.id, command.status) else NoSuchTask(command.id)) &&
      (found ==> store.file == ApplyFirst(old(store.file), command.id, NewStatus(command.status), now) &&
                 store.wellFormed && store.saves == old(store.saves) + 1)
    ensures command.List? && old(store.wellFormed) ==>
      r == Returned(if ValidFilter(command.filter)
                    then Listing(Render(Selected(old(store.file), StatusFilter(command.filter))))
                    else PrintUsage(ListUsage))
    ensures command.ShowHelp? ==> r == Returned(Help) && unchanged(store)
    ensures command.Unknown? ==> r == Returned(UnknownCommand(command.name)) && unchanged(store)
    ensures command.List? ==> unchanged(store)
    ensures LoadsStore(command) ==> (r == Raised <==> !old(store.wellFormed))
    ensures r.Raised? ==> unchanged(store)
    ensures r.Returned? && !Mutation(r.value) ==> unchanged(store)
    ensures store.saves <= old(store.saves) + 1
    ensures UniqueIds(old(store.file)) ==> UniqueIds(store.file)
  {
    match command
    case Reject(usage) =>
      r := Returned(PrintUsage(usage));
    case ShowHelp =>
      r := Returned(Help);
    case Unknown(name) =>
      r := Returned(UnknownCommand(name));
    case Add(text) =>
      r := AddCommand(store, text, now);
    case Update(id, description) =>
      r := UpdateCommand(store, id, description, now);
    case Delete(id) =>
      r := DeleteCommand(store, id);
    case Mark(id, status) =>
      r := MarkCommand(store, id, status, now);
    case List(filter) =>
      r := ListTasks(store, filter);
  }

  /**
   * main(argv) with the file as `store` and the clock reading as `now`: the
   * guards, then at most one operation, then what is printed. A command that
   * fails a guard, asks for help or is unknown never touches the file; an
   * invocation saves at most once, and only when it reports a change.
   */
  method Run(store: Store, argv: seq<string>, now: Timestamp) returns (r: Completion<Output>)
    modifies store
    ensures Parse(argv).Reject? ==> r == Returned(PrintUsage(Parse(argv).usage)) && unchanged(store)
    ensures Parse(argv).Add? && Strip(argv[2]) == [] ==> r == Returned(PrintUsage(AddUsage)) && unchanged(store)
    ensures Parse(argv).Add? && Strip(argv[2]) != [] && old(store.wellFormed) ==>
      r == Returned(TaskAdded(NextId(old(store.file)))) &&
      store.file == Appended(old(store.file), Strip(argv[2]), now) &&
      store.wellFormed && store.saves == old(store.saves) + 1
    ensures Parse(argv).Update? && old(store.wellFormed) ==>
      var found := HasId(old(store.file), Parse(argv).id);
      r == Returned(if found then TaskUpdated(Parse(argv).id) else NoSuchTask(Parse(argv).id)) &&
      (found ==> store.file == ApplyFirst(old(store.file), Parse(argv).id, NewDescription(Parse(argv).description), now) &&
                 store.wellFormed && store.saves == old(store.saves) + 1)
    ensures Parse(argv).Delete? && old(store.wellFormed) ==>
      var found := HasId(old(store.file), Parse(argv).id);
      r == Returned(if found then TaskDeleted(Parse(argv).id) else NoSuchTask(Parse(argv).id)) &&
      (found ==> store.file == WithoutId(old(store.file), Parse(argv).id) &&
                 store.wellFormed && store.saves == old(store.saves) + 1)
    ensures Parse(argv).Mark? && old(store.wellFormed) ==>
      var found := HasId(old(store.file), Parse(argv).id);
      r == Returned(if found then TaskMarked(Parse(argv).id, Parse(argv).status) else NoSuchTask(Parse(argv).id)) &&
      (found ==> store.file == ApplyFirst(old(store.file), Parse(argv).id, NewStatus(Parse(argv).status), now) &&
                 store.wellFormed && store.saves == old(store.saves) + 1)
    ensures Parse(argv).List? && old(store.wellFormed) ==>
      r == Returned(if ValidFilter(Parse(argv).filter)
                    then Listing(Render(Selected(old(store.file), StatusFilter(Parse(argv).filter))))
                    else PrintUsage(ListUsage))
    ensures Parse(argv).ShowHelp? ==> r == Returned(Help) && unchanged(store)
    ensures Parse(argv).Unknown? ==> r == Returned(UnknownCommand(argv[1])) && unchanged(store)
    ensures Parse(argv).List? ==> unchanged(store)
    ensures LoadsStore(Parse(argv)) ==> (r == Raised <==> !old(store.wellFormed))
    ensures r.Raised? ==> unchanged(store)
    ensures r.Returned? && !Mutation(r.value) ==> unchanged(store)
    ensures store.saves <= old(store.saves) + 1
    ensures UniqueIds(old(store.file)) ==> UniqueIds(store.file)
  {
    var command := Parse(argv);
    if command.Update? {
      StripIdempotent(argv[3]);
    }
    r := Execute(store, command, now);
  }
}
