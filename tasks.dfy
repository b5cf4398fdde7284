/**
 * Task records and the pure functions that say what each operation does to
 * the stored collection: id assignment, the first-match update shared by
 * mark and update, the delete filter and the list selection. The methods in
 * TaskStore and Cli are proved against these.
 */
module Tasks {
  import opened Options
  import opened Text

  datatype Status = ToDo | InProgress | Done

  /** The spelling of a status in the file and in the listing. */
  function StatusName(s: Status): (r: string)
    ensures r == "to-do" <==> s == ToDo
    ensures r == "in-progress" <==> s == InProgress
    ensures r == "done" <==> s == Done
  {
    match s
    case ToDo => "to-do"
    case InProgress => "in-progress"
    case Done => "done"
  }

  /** The `list` filter check: a word names a status exactly when it is one of the three spellings. */
  function ParseStatus(name: string): (r: Option<Status>)
    ensures r.Some? ==> StatusName(r.value) == name
    ensures r.None? ==> forall s :: StatusName(s) != name
  {
    if name == "to-do" then Some(ToDo)
    else if name == "in-progress" then Some(InProgress)
    else if name == "done" then Some(Done)
    else None
  }

  /** A timestamp as `datetime.now().isoformat(timespec="minutes")` writes it; never inspected. */
  type Timestamp = string

  datatype Task = Task(id: int, description: string, status: Status, createdAt: Timestamp, updatedAt: Timestamp)

  predicate HasId(ts: seq<Task>, id: int) {
    exists i :: 0 <= i < |ts| && ts[i].id == id
  }

  predicate UniqueIds(ts: seq<Task>) {
    forall i, j :: 0 <= i < j < |ts| ==> ts[i].id != ts[j].id
  }

  // ---------------------------------------------------------------- add

  /** `max(t["id"] for t in tasks)`: an id that is stored and not below any stored id. */
  function MaxId(ts: seq<Task>): (m: int)
    requires ts != []
    ensures HasId(ts, m)
    ensures forall i :: 0 <= i < |ts| ==> ts[i].id <= m
  {
    if |ts| == 1 then
      assert HasId(ts, ts[0].id);
      ts[0].id
    else
      var rest := MaxId(ts[1..]);
      var k :| 0 <= k < |ts| - 1 && ts[1..][k].id == rest;
      assert ts[k + 1].id == rest;
      if ts[0].id >= rest then ts[0].id else rest
  }

  /**
   * The id add_task hands out: above every stored id, and one above the
   * largest (no gap is filled), or 1 for an empty store.
   */
  function NextId(ts: seq<Task>): (r: int)
    ensures forall i :: 0 <= i < |ts| ==> ts[i].id < r
    ensures ts == [] ==> r == 1
    ensures ts != [] ==> HasId(ts, r - 1)
  {
    if ts == [] then 1 else MaxId(ts) + 1
  }

  /**
   * The collection after add_task stored a new task with the (already
   * stripped) description: every stored task stays where it was, and a to-do
   * task with an id not already stored, created and updated `now`, comes last.
   */
  function Appended(ts: seq<Task>, description: string, now: Timestamp): (r: seq<Task>)
    ensures |r| == |ts| + 1 && r[..|ts|] == ts
    ensures r[|ts|].description == description && r[|ts|].status == ToDo
    ensures r[|ts|].createdAt == now && r[|ts|].updatedAt == now
    ensures r[|ts|].id == NextId(ts) && !HasId(ts, r[|ts|].id)
  {
    var r := ts + [Task(NextId(ts), description, ToDo, now, now)];
    assert r[..|ts|] == ts;
    r
  }

  /** A store whose ids are unique keeps them unique through an add. */
  lemma AppendedKeepsUnique(ts: seq<Task>, description: string, now: Timestamp)
    requires UniqueIds(ts)
    ensures UniqueIds(Appended(ts, description, now))
  {
    var r := Appended(ts, description, now);
    forall i, j | 0 <= i < j < |r| ensures r[i].id != r[j].id {
      if j == |ts| {
        assert r[i] == ts[i];
      } else {
        assert r[i] == ts[i] && r[j] == ts[j];
      }
    }
  }

  /**
   * Ids are assigned from the current maximum: adding a task, deleting it
   * again and adding once more hands out the same id twice.
   */
  lemma IdReusedAfterUndoingAdd(ts: seq<Task>, description: string, now: Timestamp)
    ensures WithoutId(Appended(ts, description, now), NextId(ts)) == ts
    ensures NextId(WithoutId(Appended(ts, description, now), NextId(ts))) == NextId(ts)
  {
    var n := NextId(ts);
    var t := Task(n, description, ToDo, now, now);
    assert Appended(ts, description, now) == ts + [t];
    WithoutIdAppend(ts, [t], n);
    WithoutIdLength(ts, n);
    assert WithoutId([t], n) == WithoutId([t][1..], n);
    assert [t][1..] == [];
  }

  /** After deleting id m from a store whose ids are at most m, every id left is below m. */
  lemma WithoutIdBelow(ts: seq<Task>, m: int)
    requires forall i :: 0 <= i < |ts| ==> ts[i].id <= m
    ensures forall i :: 0 <= i < |WithoutId(ts, m)| ==> WithoutId(ts, m)[i].id < m
  {
    var rest := WithoutId(ts, m);
    forall i | 0 <= i < |rest| ensures rest[i].id < m {
      WithoutIdMembers(ts, m, rest[i]);
    }
  }

  /** Delete keeps every other id stored. */
  lemma WithoutIdHasId(ts: seq<Task>, id: int, other: int)
    requires other != id
    ensures HasId(WithoutId(ts, id), other) <==> HasId(ts, other)
  {
    var rest := WithoutId(ts, id);
    if HasId(ts, other) {
      var k :| 0 <= k < |ts| && ts[k].id == other;
      WithoutIdMembers(ts, id, ts[k]);
    }
    if HasId(rest, other) {
      var j :| 0 <= j < |rest| && rest[j].id == other;
      WithoutIdMembers(ts, id, rest[j]);
    }
  }

  /** When every stored id is below m, the next id is m exactly when m - 1 is stored (or m is 1 and the store empty). */
  lemma NextIdBelow(ts: seq<Task>, m: int)
    requires forall i :: 0 <= i < |ts| ==> ts[i].id < m
    ensures NextId(ts) == m <==> HasId(ts, m - 1) || (ts == [] && m == 1)
  {
    if HasId(ts, m - 1) {
      var j :| 0 <= j < |ts| && ts[j].id == m - 1;
      assert MaxId(ts) >= m - 1;
    }
  }

  /**
   * Deleting the task(s) with the largest id m and adding again hands m out
   * again exactly when m - 1 is still stored, or m was 1 and nothing is left.
   */
  lemma IdReuseAfterDeletingMax(ts: seq<Task>, m: int)
    requires HasId(ts, m) && forall i :: 0 <= i < |ts| ==> ts[i].id <= m
    ensures var rest := WithoutId(ts, m);
      NextId(rest) == m <==> HasId(ts, m - 1) || (rest == [] && m == 1)
  {
    WithoutIdBelow(ts, m);
    WithoutIdHasId(ts, m, m - 1);
    NextIdBelow(WithoutId(ts, m), m);
  }

  // ---------------------------------------------------------------- mark and update

  /** The in-place change mark_task (status) or update_task (description) makes to one task. */
  datatype Change = NewStatus(status: Status) | NewDescription(description: string)

  /** One task after a change at time `now`: id and createdAt are kept, updatedAt is refreshed. */
  function Changed(t: Task, c: Change, now: Timestamp): (u: Task)
    ensures u.id == t.id && u.createdAt == t.createdAt && u.updatedAt == now
    ensures c.NewStatus? ==> u.status == c.status && u.description == t.description
    ensures c.NewDescription? ==> u.description == c.description && u.status == t.status
  {
    match c
    case NewStatus(s) => t.(status := s, updatedAt := now)
    case NewDescription(d) => t.(description := d, updatedAt := now)
  }

  /** The position of the first task with the given id, if any. */
  function FindId(ts: seq<Task>, id: int): (r: Option<nat>)
    ensures r.None? <==> !HasId(ts, id)
    ensures r.Some? ==> r.value < |ts| && ts[r.value].id == id
    ensures r.Some? ==> forall j :: 0 <= j < r.value ==> ts[j].id != id
  {
    if ts == [] then None
    else if ts[0].id == id then Some(0)
    else
      match FindId(ts[1..], id)
      case None =>
        assert forall i :: 1 <= i < |ts| ==> ts[i] == ts[1..][i - 1];
        None
      case Some(k) =>
        assert forall j :: 1 <= j <= k ==> ts[j] == ts[1..][j - 1];
        Some(k + 1)
  }

  /** A position holding the id with no earlier one is what the search finds. */
  lemma FirstMatch(ts: seq<Task>, id: int, i: nat)
    requires i < |ts| && ts[i].id == id
    requires forall j :: 0 <= j < i ==> ts[j].id != id
    ensures FindId(ts, id) == Some(i)
  {
    assert HasId(ts, id);
  }

  /** The collection after changing the first task with the given id (a scan that stops at the first match). */
  function ApplyFirst(ts: seq<Task>, id: int, c: Change, now: Timestamp): seq<Task> {
    if ts == [] then []
    else if ts[0].id == id then [Changed(ts[0], c, now)] + ts[1..]
    else [ts[0]] + ApplyFirst(ts[1..], id, c, now)
  }

  /** With no task holding the id, the first-match change changes nothing. */
  lemma {:induction false} ApplyFirstMissing(ts: seq<Task>, id: int, c: Change, now: Timestamp)
    requires FindId(ts, id).None?
    ensures ApplyFirst(ts, id, c, now) == ts
  {
    if ts != [] {
      assert ts[0].id != id && FindId(ts[1..], id).None?;
      ApplyFirstMissing(ts[1..], id, c, now);
      assert ts == [ts[0]] + ts[1..];
    }
  }

  /** The first-match change replaces the task at the position the search finds. */
  lemma {:induction false} ApplyFirstFound(ts: seq<Task>, id: int, c: Change, now: Timestamp, k: nat)
    requires FindId(ts, id) == Some(k)
    ensures ApplyFirst(ts, id, c, now) == ts[k := Changed(ts[k], c, now)]
  {
    if ts[0].id == id {
      assert k == 0;
      assert [Changed(ts[0], c, now)] + ts[1..] == ts[0 := Changed(ts[0], c, now)];
    } else {
      var tail := ts[1..];
      assert FindId(tail, id) == Some(k - 1);
      ApplyFirstFound(tail, id, c, now, k - 1);
      assert [ts[0]] + tail[k - 1 := Changed(tail[k - 1], c, now)] == ts[k := Changed(ts[k], c, now)];
    }
  }

  /**
   * The first-match change is a point update at the first matching position,
   * and no change at all when no task has the id.
   */
  lemma ApplyFirstAt(ts: seq<Task>, id: int, c: Change, now: Timestamp)
    ensures FindId(ts, id).None? ==> ApplyFirst(ts, id, c, now) == ts
    ensures FindId(ts, id).Some? ==>
      var k := FindId(ts, id).value;
      ApplyFirst(ts, id, c, now) == ts[k := Changed(ts[k], c, now)]
  {
    match FindId(ts, id)
    case None => ApplyFirstMissing(ts, id, c, now);
    case Some(k) => ApplyFirstFound(ts, id, c, now, k);
  }

  /** Changing the first match keeps the length, the order, every id and every other task. */
  lemma ApplyFirstFrame(ts: seq<Task>, id: int, c: Change, now: Timestamp)
    ensures var r := ApplyFirst(ts, id, c, now);
      |r| == |ts| &&
      (forall i :: 0 <= i < |ts| ==> r[i].id == ts[i].id && r[i].createdAt == ts[i].createdAt) &&
      (forall i :: 0 <= i < |ts| && Some(i) != FindId(ts, id) ==> r[i] == ts[i])
  {
    ApplyFirstAt(ts, id, c, now);
  }

  /** A store whose ids are unique keeps them unique through a mark or an update. */
  lemma ApplyFirstKeepsUnique(ts: seq<Task>, id: int, c: Change, now: Timestamp)
    requires UniqueIds(ts)
    ensures UniqueIds(ApplyFirst(ts, id, c, now))
  {
    ApplyFirstFrame(ts, id, c, now);
  }

  /** Two collections that carry the same ids position by position. */
  predicate SameIds(a: seq<Task>, b: seq<Task>) {
    |a| == |b| && forall i :: 0 <= i < |a| ==> a[i].id == b[i].id
  }

  /** The first-match search only looks at ids. */
  lemma {:induction false} FindIdSameIds(a: seq<Task>, b: seq<Task>, id: int)
    requires SameIds(a, b)
    ensures FindId(a, id) == FindId(b, id)
  {
    if a != [] && a[0].id != id {
      assert SameIds(a[1..], b[1..]) by {
        forall i | 0 <= i < |a| - 1 ensures a[1..][i].id == b[1..][i].id {
          assert a[1..][i] == a[i + 1] && b[1..][i] == b[i + 1];
        }
      }
      FindIdSameIds(a[1..], b[1..], id);
    }
  }

  /** A change never adds or removes an id, so every id is found where it was before. */
  lemma ApplyFirstKeepsIds(ts: seq<Task>, id: int, c: Change, now: Timestamp, other: int)
    ensures HasId(ApplyFirst(ts, id, c, now), other) <==> HasId(ts, other)
    ensures FindId(ApplyFirst(ts, id, c, now), other) == FindId(ts, other)
  {
    ApplyFirstFrame(ts, id, c, now);
    FindIdSameIds(ApplyFirst(ts, id, c, now), ts, other);
  }

  /**
   * Marking twice with the same status ends as marking once at the later
   * time: the status is the same, only updatedAt moves on, and the second
   * mark still finds the task.
   */
  lemma RepeatedMark(ts: seq<Task>, id: int, s: Status, first: Timestamp, second: Timestamp)
    ensures HasId(ApplyFirst(ts, id, NewStatus(s), first), id) <==> HasId(ts, id)
    ensures ApplyFirst(ApplyFirst(ts, id, NewStatus(s), first), id, NewStatus(s), second)
         == ApplyFirst(ts, id, NewStatus(s), second)
  {
    var once := ApplyFirst(ts, id, NewStatus(s), first);
    ApplyFirstKeepsIds(ts, id, NewStatus(s), first, id);
    ApplyFirstAt(ts, id, NewStatus(s), first);
    ApplyFirstAt(once, id, NewStatus(s), second);
    ApplyFirstAt(ts, id, NewStatus(s), second);
  }

  // ---------------------------------------------------------------- delete

  /** `[t for t in tasks if t["id"] != task_id]`. */
  function WithoutId(ts: seq<Task>, id: int): (r: seq<Task>)
    ensures |r| <= |ts|
    ensures forall i :: 0 <= i < |r| ==> r[i].id != id
  {
    if ts == [] then []
    else if ts[0].id == id then WithoutId(ts[1..], id)
    else [ts[0]] + WithoutId(ts[1..], id)
  }

  /**
   * The length test of delete_task is exactly the "no such id" test: the
   * filtered list is as long as the original iff no task has the id, and then
   * it is the original list.
   */
  lemma {:induction false} WithoutIdLength(ts: seq<Task>, id: int)
    ensures |WithoutId(ts, id)| == |ts| <==> !HasId(ts, id)
    ensures !HasId(ts, id) ==> WithoutId(ts, id) == ts
  {
    if ts != [] {
      WithoutIdLength(ts[1..], id);
      if HasId(ts[1..], id) {
        var k :| 0 <= k < |ts| - 1 && ts[1..][k].id == id;
        assert ts[k + 1].id == id;
      }
      if !HasId(ts, id) {
        assert ts[0].id != id;
        assert !HasId(ts[1..], id) by {
          forall k | 0 <= k < |ts| - 1 ensures ts[1..][k].id != id {
            assert ts[1..][k] == ts[k + 1];
          }
        }
        assert ts == [ts[0]] + ts[1..];
      }
    }
  }

  /** Delete keeps exactly the tasks with another id, unchanged: no renumbering. */
  lemma {:induction false} WithoutIdMembers(ts: seq<Task>, id: int, t: Task)
    ensures t in WithoutId(ts, id) <==> t in ts && t.id != id
  {
    if ts != [] {
      WithoutIdMembers(ts[1..], id, t);
      assert t in ts <==> t == ts[0] || t in ts[1..] by {
        assert ts == [ts[0]] + ts[1..];
      }
    }
  }

  /** Delete keeps the relative order: filtering a concatenation filters each part. */
  lemma {:induction false} WithoutIdAppend(a: seq<Task>, b: seq<Task>, id: int)
    ensures WithoutId(a + b, id) == WithoutId(a, id) + WithoutId(b, id)
  {
    if a == [] {
      assert a + b == b;
    } else {
      var ab := a + b;
      assert ab[0] == a[0];
      assert ab[1..] == a[1..] + b;
      WithoutIdAppend(a[1..], b, id);
      if a[0].id == id {
        assert WithoutId(ab, id) == WithoutId(ab[1..], id);
      } else {
        assert WithoutId(ab, id) == [a[0]] + WithoutId(ab[1..], id);
        assert WithoutId(a, id) == [a[0]] + WithoutId(a[1..], id);
      }
    }
  }

  /** A store whose ids are unique keeps them unique through a delete. */
  lemma {:induction false} WithoutIdKeepsUnique(ts: seq<Task>, id: int)
    requires UniqueIds(ts)
    ensures UniqueIds(WithoutId(ts, id))
  {
    if ts != [] {
      var rest := ts[1..];
      assert UniqueIds(rest) by {
        forall i, j | 0 <= i < j < |rest| ensures rest[i].id != rest[j].id {
          assert rest[i] == ts[i + 1] && rest[j] == ts[j + 1];
        }
      }
      WithoutIdKeepsUnique(rest, id);
      if ts[0].id != id {
        var r := WithoutId(ts, id);
        var w := WithoutId(rest, id);
        forall i, j | 0 <= i < j < |r| ensures r[i].id != r[j].id {
          if i == 0 {
            assert r[j] == w[j - 1];
            WithoutIdMembers(rest, id, w[j - 1]);
            var k :| 0 <= k < |rest| && rest[k] == w[j - 1];
            assert rest[k] == ts[k + 1];
          } else {
            assert r[i] == w[i - 1] && r[j] == w[j - 1];
          }
        }
      }
    }
  }

  // ---------------------------------------------------------------- list

  /** Whether the `list` loop prints a task: no filter, or the filter is its status. */
  predicate Shown(t: Task, filter: Option<Status>) {
    filter.None? || t.status == filter.value
  }

  /** The tasks the `list` loop prints, in stored order. */
  function Selected(ts: seq<Task>, filter: Option<Status>): (r: seq<Task>)
    ensures |r| <= |ts|
    ensures forall i :: 0 <= i < |r| ==> Shown(r[i], filter)
  {
    if ts == [] then []
    else if Shown(ts[0], filter) then [ts[0]] + Selected(ts[1..], filter)
    else Selected(ts[1..], filter)
  }

  /** Without a filter every task is listed, in stored order. */
  lemma {:induction false} SelectedAll(ts: seq<Task>)
    ensures Selected(ts, None) == ts
  {
    if ts != [] {
      SelectedAll(ts[1..]);
      assert ts == [ts[0]] + ts[1..];
    }
  }

  /** With a filter exactly the stored tasks of that status are listed. */
  lemma {:induction false} SelectedMembers(ts: seq<Task>, filter: Option<Status>, t: Task)
    ensures t in Selected(ts, filter) <==> t in ts && Shown(t, filter)
  {
    if ts != [] {
      SelectedMembers(ts[1..], filter, t);
      assert t in ts <==> t == ts[0] || t in ts[1..] by {
        assert ts == [ts[0]] + ts[1..];
      }
    }
  }

  /** Listing keeps the stored order: selecting from a concatenation selects from each part. */
  lemma {:induction false} SelectedAppend(a: seq<Task>, b: seq<Task>, filter: Option<Status>)
    ensures Selected(a + b, filter) == Selected(a, filter) + Selected(b, filter)
  {
    if a == [] {
      assert a + b == b;
    } else {
      var ab := a + b;
      assert ab[0] == a[0];
      assert ab[1..] == a[1..] + b;
      SelectedAppend(a[1..], b, filter);
      if Shown(a[0], filter) {
        assert Selected(ab, filter) == [a[0]] + Selected(ab[1..], filter);
        assert Selected(a, filter) == [a[0]] + Selected(a[1..], filter);
      } else {
        assert Selected(ab, filter) == Selected(ab[1..], filter);
      }
    }
  }

  /** One listing line: `[<id>] (<status>) <description>`. */
  function FormatLine(t: Task): string {
    IdTag(t.id) + " (" + StatusName(t.status) + ") " + t.description
  }

  /** The `[<id>]` that starts a listing line. */
  function IdTag(id: int): string {
    "[" + FormatInt(id) + "]"
  }

  /**
   * A listing line starts with its task's `[<id>]`, the id there reads back
   * as the task's id, and the line ends with the task's description.
   */
  lemma FormatLineId(t: Task)
    ensures var n := FormatInt(t.id);
      |FormatLine(t)| > |n| + 2 && FormatLine(t)[..|n| + 2] == "[" + n + "]" && ParseInt(n) == Some(t.id)
    ensures |FormatLine(t)| >= |t.description| &&
      FormatLine(t)[|FormatLine(t)| - |t.description|..] == t.description
  {
    var tag := IdTag(t.id);
    var rest := " (" + StatusName(t.status) + ") " + t.description;
    assert FormatLine(t) == tag + rest;
    assert (tag + rest)[..|tag|] == tag;
    assert (tag + rest)[|tag + rest| - |t.description|..] == t.description;
    ParseFormat(t.id);
  }

  /** The lines printed for a sequence of tasks, one per task, in order. */
  function Render(ts: seq<Task>): (lines: seq<string>)
    ensures |lines| == |ts|
    ensures forall i :: 0 <= i < |ts| ==> lines[i] == FormatLine(ts[i])
  {
    if ts == [] then [] else [FormatLine(ts[0])] + Render(ts[1..])
  }

  // ---------------------------------------------------------------- scenarios

  /** Ids 1 and 3 are stored: the next id is 4, the gap at 2 is not filled. */
  lemma NextIdSkipsGaps(a: Task, b: Task)
    requires a.id == 1 && b.id == 3
    ensures NextId([a, b]) == 4
  {
    assert HasId([a, b], 3) by { assert [a, b][1].id == 3; }
  }

  /**
   * Add "Buy milk" to an empty store, mark it done, list by status, then
   * delete it: id 1, a done line, nothing to do, and an empty store in which
   * a second delete no longer finds the id.
   */
  lemma BuyMilkScenario(created: Timestamp, marked: Timestamp)
    ensures Appended([], "Buy milk", created) == [Task(1, "Buy milk", ToDo, created, created)]
    ensures ApplyFirst([Task(1, "Buy milk", ToDo, created, created)], 1, NewStatus(Done), marked)
         == [Task(1, "Buy milk", Done, created, marked)]
    ensures Render(Selected([Task(1, "Buy milk", Done, created, marked)], Some(Done))) == ["[1] (done) Buy milk"]
    ensures Selected([Task(1, "Buy milk", Done, created, marked)], Some(ToDo)) == []
    ensures WithoutId([Task(1, "Buy milk", Done, created, marked)], 1) == []
    ensures !HasId(WithoutId([Task(1, "Buy milk", Done, created, marked)], 1), 1)
  {
    var done := Task(1, "Buy milk", Done, created, marked);
    assert [done][1..] == [];
    assert Selected([done], Some(Done)) == [done];
    assert FormatInt(1) == "1";
    assert FormatLine(done) == "[1] (done) Buy milk";
  }
}
