/** The to-do endpoints. Every lookup is restricted to the rows of the user
    the bearer token resolves to, so a row of another user is answered
    exactly as a missing one. With the authentication middleware switched
    off, a request without a resolvable token reaches the handler and fails
    on the null user (500). */
module ToDoController {
  import opened Http
  import opened Accounts
  import opened ToDoSchema
  import opened Store

  /** The fields of a request body; `None` marks a field the body leaves
      out, and for `description` and `due_date` an inner `None` is JSON
      null. `completed` and `user_id` have no rule in `store`. */
  datatype ToDoRequest = ToDoRequest(
    title: Option<string>,
    description: Option<Option<string>>,
    dueDate: Option<Option<int>>,
    priority: Option<string>,
    status: Option<string>,
    completed: Option<bool>,
    userId: Option<nat>)

  datatype Entry = Entry(id: ToDoId, row: ToDo)

  /** `in:low,medium,high`. */
  const AcceptedPriorities: set<string> := {"low", "medium", "high"}

  /** `in:pending,in_progress,completed,archived,not_started,cancelled`. */
  const AcceptedStatuses: set<string> :=
    {"pending", "in_progress", "completed", "archived", "not_started", "cancelled"}

  /** `string|max:255` on a present title; the empty string arrives as null
      and fails `string`. */
  predicate TitleRule(t: string) {
    1 <= |t| <= 255
  }

  /** The rules of `store`; `description` and `due_date` are nullable. */
  predicate StoreRulesHold(req: ToDoRequest) {
    && req.title.Some? && TitleRule(req.title.value)
    && req.priority.Some? && req.priority.value in AcceptedPriorities
    && req.status.Some? && req.status.value in AcceptedStatuses
  }

  /** The rules of `update`: every rule is `sometimes`, so only the fields
      present are checked. */
  predicate UpdateRulesHold(req: ToDoRequest) {
    && (req.title.Some? ==> TitleRule(req.title.value))
    && (req.priority.Some? ==> req.priority.value in AcceptedPriorities)
    && (req.status.Some? ==> req.status.value in AcceptedStatuses)
  }

  /** `ToDo::where('user_id', $user->id)->find($id)` finds the row. */
  predicate Owns(rows: map<ToDoId, ToDo>, caller: UserId, id: ToDoId) {
    id in rows && rows[id].userId == caller
  }

  /** `orderBy('due_date', 'asc')`, with NULL before every date as MySQL
      orders it. */
  predicate DueLe(a: Option<int>, b: Option<int>) {
    a.None? || (b.Some? && a.value <= b.value)
  }

  predicate SortedByDue(s: seq<Entry>) {
    forall i, j :: 0 <= i < j < |s| ==> DueLe(s[i].row.dueDate, s[j].row.dueDate)
  }

  predicate DistinctIds(s: seq<Entry>) {
    forall i, j :: 0 <= i < j < |s| ==> s[i].id != s[j].id
  }

  /** The caller's rows with id below `n`, in ascending id order. */
  function OwnedBelow(rows: map<ToDoId, ToDo>, caller: UserId, n: nat): (r: seq<Entry>)
    ensures forall e :: e in r <==> e.id < n && Owns(rows, caller, e.id) && e.row == rows[e.id]
    ensures forall i, j :: 0 <= i < j < |r| ==> r[i].id < r[j].id
  {
    if n == 0 then []
    else
      var prefix := OwnedBelow(rows, caller, n - 1);
      if Owns(rows, caller, n - 1) then prefix + [Entry(n - 1, rows[n - 1])] else prefix
  }

  /** Puts one entry into a list ordered by due date. */
  function InsertByDue(e: Entry, s: seq<Entry>): (r: seq<Entry>)
    requires SortedByDue(s)
    ensures SortedByDue(r)
    ensures multiset(r) == multiset(s) + multiset{e}
    ensures r[0] == e || (s != [] && r[0] == s[0])
  {
    if s == [] then [e]
    else if DueLe(e.row.dueDate, s[0].row.dueDate) then [e] + s
    else
      assert s == [s[0]] + s[1..];
      var rest := InsertByDue(e, s[1..]);
      assert DueLe(s[0].row.dueDate, rest[0].row.dueDate);
      [s[0]] + rest
  }

  /** Insertion sort by due date: ordered, and a permutation of its input. */
  function SortByDue(s: seq<Entry>): (r: seq<Entry>)
    ensures SortedByDue(r)
    ensures multiset(r) == multiset(s)
  {
    if s == [] then []
    else
      assert s == [s[0]] + s[1..];
      InsertByDue(s[0], SortByDue(s[1..]))
  }

  lemma {:induction false} CountAtMostOne(s: seq<Entry>, x: Entry)
    requires DistinctIds(s)
    ensures multiset(s)[x] <= 1
    decreases |s|
  {
    if s != [] {
      var p, last := s[..|s| - 1], s[|s| - 1];
      assert s == p + [last];
      CountAtMostOne(p, x);
      if last == x {
        forall k | 0 <= k < |p| ensures p[k] != x {
          assert s[k].id != s[|s| - 1].id;
        }
        assert x !in p;
      }
    }
  }

  lemma CountAtLeastTwo(t: seq<Entry>, i: nat, j: nat)
    requires i < j < |t| && t[i] == t[j]
    ensures multiset(t)[t[i]] >= 2
  {
    var x := t[i];
    assert t == t[..i] + [x] + t[i + 1..j] + [x] + t[j + 1..];
  }

  /** Two entries of a list with distinct ids that share an id are equal. */
  lemma SameIdSameEntry(s: seq<Entry>, x: Entry, y: Entry)
    requires DistinctIds(s) && x in s && y in s && x.id == y.id
    ensures x == y
  {
    var a :| 0 <= a < |s| && s[a] == x;
    var b :| 0 <= b < |s| && s[b] == y;
    if a != b {
      assert false;
    }
  }

  /** A permutation of a list with distinct ids has distinct ids. */
  lemma PermutationKeepsDistinctIds(s: seq<Entry>, t: seq<Entry>)
    requires multiset(s) == multiset(t) && DistinctIds(s)
    ensures DistinctIds(t)
  {
    forall i, j | 0 <= i < j < |t| ensures t[i].id != t[j].id {
      if t[i].id == t[j].id {
        assert t[i] in multiset(t) && t[j] in multiset(t);
        SameIdSameEntry(s, t[i], t[j]);
        CountAtLeastTwo(t, i, j);
        CountAtMostOne(s, t[i]);
      }
    }
  }

  /** `index`: the caller's rows ordered by due date. */
  function Index(rows: map<ToDoId, ToDo>, bound: nat, caller: Option<UserId>): (r: Result<seq<Entry>>)
    requires forall i :: i in rows ==> i < bound
    ensures r.Err? <==> caller.None?
    ensures r.Err? ==> r.error == ServerError
    ensures r.Ok? ==>
      && SortedByDue(r.value)
      && DistinctIds(r.value)
      && (forall e :: e in r.value ==> Owns(rows, caller.value, e.id) && e.row == rows[e.id])
      && (forall i :: Owns(rows, caller.value, i) ==> Entry(i, rows[i]) in r.value)
  {
    if caller.None? then Err(ServerError)
    else
      var owned := OwnedBelow(rows, caller.value, bound);
      var sorted := SortByDue(owned);
      assert forall e :: e in sorted <==> e in owned by {
        forall e ensures e in sorted <==> e in owned {
          assert e in sorted <==> e in multiset(sorted);
          assert e in owned <==> e in multiset(owned);
        }
      }
      PermutationKeepsDistinctIds(owned, sorted);
      Ok(sorted)
  }

  /** `show`: the row when the caller owns it, "To-do not found" otherwise. */
  function Show(rows: map<ToDoId, ToDo>, caller: Option<UserId>, id: ToDoId): (r: Result<ToDo>)
    ensures r.Ok? <==> caller.Some? && Owns(rows, caller.value, id)
    ensures r.Ok? ==> r.value == rows[id]
    ensures r.Err? ==> r.error == if caller.None? then ServerError else NotFound
  {
    if caller.None? then Err(ServerError)
    else if !Owns(rows, caller.value, id) then Err(NotFound)
    else Ok(rows[id])
  }

  /** The row `store` asks the table to insert, or why it fails: the
      validator first, then the missing keys of `$validated` and the null
      user (both uncaught errors), then the table's own constraints. */
  function StoreRow(req: ToDoRequest, caller: Option<UserId>, userIds: set<nat>): (r: Result<ToDo>)
    ensures r.Ok? <==>
      && StoreRulesHold(req)
      && req.description.Some? && req.dueDate.Some?
      && caller.Some? && caller.value in userIds
      && DescriptionFits(req.description.value) && DueDateFits(req.dueDate.value)
      && req.status.value in Statuses
    ensures !StoreRulesHold(req) <==> r == Err(ValidationFailed)
    ensures StoreRulesHold(req) && !r.Ok? ==> r == Err(ServerError)
    ensures r.Ok? ==>
      && r.value.userId == caller.value && !r.value.completed
      && r.value.title == req.title.value
      && r.value.description == req.description.value
      && r.value.dueDate == req.dueDate.value
      && r.value.priority == req.priority.value
      && r.value.status == req.status.value
      && RowConforms(r.value, userIds)
  {
    if !StoreRulesHold(req) then Err(ValidationFailed)
    else if req.description.None? || caller.None? || req.dueDate.None? then Err(ServerError)
    else
      Constrain(
        WithDefaults(Insert(
          req.title.value, Some(req.description.value), Some(false), caller.value,
          Some(req.dueDate.value), Some(req.priority.value), Some(req.status.value))),
        userIds)
  }

  /** `$toDo->update($validated)`: the fields present in the request replace
      the stored ones; `user_id` has no rule and is never taken. */
  function Patch(row: ToDo, req: ToDoRequest): (r: ToDo)
    ensures r.userId == row.userId
    ensures r.title == if req.title.Some? then req.title.value else row.title
    ensures r.description == if req.description.Some? then req.description.value else row.description
    ensures r.dueDate == if req.dueDate.Some? then req.dueDate.value else row.dueDate
    ensures r.priority == if req.priority.Some? then req.priority.value else row.priority
    ensures r.status == if req.status.Some? then req.status.value else row.status
    ensures r.completed == if req.completed.Some? then req.completed.value else row.completed
  {
    ToDo(
      if req.title.Some? then req.title.value else row.title,
      if req.description.Some? then req.description.value else row.description,
      if req.completed.Some? then req.completed.value else row.completed,
      row.userId,
      if req.dueDate.Some? then req.dueDate.value else row.dueDate,
      if req.priority.Some? then req.priority.value else row.priority,
      if req.status.Some? then req.status.value else row.status)
  }

  /** The row `update` writes, or why it fails: the null user, then
      ownership (before any validation), then the rules, then the table's
      constraints. */
  function UpdateRow(rows: map<ToDoId, ToDo>, caller: Option<UserId>, id: ToDoId, req: ToDoRequest, userIds: set<nat>)
    : (r: Result<ToDo>)
    ensures caller.None? ==> r == Err(ServerError)
    ensures caller.Some? && !Owns(rows, caller.value, id) ==> r == Err(NotFound)
    ensures caller.Some? && Owns(rows, caller.value, id) ==>
      && (!UpdateRulesHold(req) <==> r == Err(ValidationFailed))
      && (r.Ok? <==> UpdateRulesHold(req) && RowConforms(Patch(rows[id], req), userIds))
      && (UpdateRulesHold(req) && !r.Ok? ==> r == Err(ServerError))
      && (r.Ok? ==> r.value == Patch(rows[id], req))
  {
    if caller.None? then Err(ServerError)
    else if !Owns(rows, caller.value, id) then Err(NotFound)
    else if !UpdateRulesHold(req) then Err(ValidationFailed)
    else Constrain(Patch(rows[id], req), userIds)
  }

  /** `store`: the row produced by `StoreRow` is inserted under a fresh id. */
  method StoreToDo(db: Database, bearer: Option<TokenId>, req: ToDoRequest) returns (r: Result<Entry>)
    requires db.Valid()
    modifies db
    ensures db.Valid()
    ensures var attempt := StoreRow(req, old(db.CurrentUser(bearer)), old(db.users.Keys));
      && (r.Err? <==> attempt.Err?)
      && (r.Err? ==> r.error == attempt.error && unchanged(db))
      && (r.Ok? ==>
            && r.value.id !in old(db.todos)
            && r.value.row == attempt.value
            && db.todos == old(db.todos)[r.value.id := r.value.row])
    ensures db.users == old(db.users) && db.tokens == old(db.tokens) && db.outbox == old(db.outbox)
  {
    var attempt := StoreRow(req, db.CurrentUser(bearer), db.users.Keys);
    if attempt.Err? {
      return Err(attempt.error);
    }
    var id := db.nextToDoId;
    db.todos := db.todos[id := attempt.value];
    db.nextToDoId := id + 1;
    r := Ok(Entry(id, attempt.value));
  }

  /** `update`: the row produced by `UpdateRow` replaces the matched row. */
  method UpdateToDo(db: Database, bearer: Option<TokenId>, id: ToDoId, req: ToDoRequest) returns (r: Result<ToDo>)
    requires db.Valid()
    modifies db
    ensures db.Valid()
    ensures var attempt := UpdateRow(old(db.todos), old(db.CurrentUser(bearer)), id, req, old(db.users.Keys));
      && r == attempt
      && (r.Err? ==> unchanged(db))
      && (r.Ok? ==> db.todos == old(db.todos)[id := r.value])
    ensures db.users == old(db.users) && db.tokens == old(db.tokens) && db.outbox == old(db.outbox)
  {
    r := UpdateRow(db.todos, db.CurrentUser(bearer), id, req, db.users.Keys);
    if r.Ok? {
      db.todos := db.todos[id := r.value];
    }
  }

  /** `destroy`: removes the matched row and nothing else. */
  method DestroyToDo(db: Database, bearer: Option<TokenId>, id: ToDoId) returns (r: Result<()>)
    requires db.Valid()
    modifies db
    ensures db.Valid()
    ensures var caller := old(db.CurrentUser(bearer));
      && (caller.None? ==> r == Err(ServerError))
      && (caller.Some? && !Owns(old(db.todos), caller.value, id) ==> r == Err(NotFound))
      && (r.Ok? <==> caller.Some? && Owns(old(db.todos), caller.value, id))
    ensures r.Err? ==> unchanged(db)
    ensures r.Ok? ==> db.todos == old(db.todos) - {id}
    ensures db.users == old(db.users) && db.tokens == old(db.tokens) && db.outbox == old(db.outbox)
  {
    var caller := db.CurrentUser(bearer);
    if caller.None? {
      return Err(ServerError);
    }
    if !Owns(db.todos, caller.value, id) {
      return Err(NotFound);
    }
    db.todos := db.todos - {id};
    r := Ok(());
  }

  /** Two tables that agree on the caller's rows look the same to the
      caller: `index` lists the same entries. Rows of other users, or their
      absence, cannot be observed. */
  lemma {:induction false} OwnedBelowSeesOnlyOwnRows(rows1: map<ToDoId, ToDo>, rows2: map<ToDoId, ToDo>, caller: UserId, n: nat)
    requires forall i :: Owns(rows1, caller, i) ==> Owns(rows2, caller, i) && rows1[i] == rows2[i]
    requires forall i :: Owns(rows2, caller, i) ==> Owns(rows1, caller, i)
    ensures OwnedBelow(rows1, caller, n) == OwnedBelow(rows2, caller, n)
  {
    if n > 0 {
      OwnedBelowSeesOnlyOwnRows(rows1, rows2, caller, n - 1);
    }
  }

  lemma IndexSeesOnlyOwnRows(rows1: map<ToDoId, ToDo>, rows2: map<ToDoId, ToDo>, bound: nat, caller: UserId)
    requires forall i :: i in rows1 ==> i < bound
    requires forall i :: i in rows2 ==> i < bound
    requires forall i :: Owns(rows1, caller, i) ==> Owns(rows2, caller, i) && rows1[i] == rows2[i]
    requires forall i :: Owns(rows2, caller, i) ==> Owns(rows1, caller, i)
    ensures Index(rows1, bound, Some(caller)) == Index(rows2, bound, Some(caller))
  {
    OwnedBelowSeesOnlyOwnRows(rows1, rows2, caller, bound);
  }

  /** A row owned by someone else gets the same answer as no row at all,
      from `show` and from `update` whatever the request. */
  lemma ForeignRowLooksMissing(rows: map<ToDoId, ToDo>, caller: UserId, id: ToDoId, req: ToDoRequest, userIds: set<nat>)
    requires id in rows && rows[id].userId != caller
    ensures Show(rows, Some(caller), id) == Show(rows - {id}, Some(caller), id) == Err(NotFound)
    ensures UpdateRow(rows, Some(caller), id, req, userIds) == UpdateRow(rows - {id}, Some(caller), id, req, userIds) == Err(NotFound)
    ensures !Owns(rows, caller, id) && !Owns(rows - {id}, caller, id)
  {
  }

  /** Whatever `user_id` and `completed` the body carries, `store` makes the
      caller the owner and the row not completed. */
  lemma StoreIgnoresClientOwner(req: ToDoRequest, owner: Option<nat>, completed: Option<bool>, caller: Option<UserId>, userIds: set<nat>)
    ensures StoreRow(req.(userId := owner, completed := completed), caller, userIds) == StoreRow(req, caller, userIds)
  {
  }

  /** The three statuses the validator accepts beyond the table's enum pass
      validation and are then refused by the table with an uncaught error,
      on insert and on update alike. */
  lemma WiderStatusesRefusedByTable(req: ToDoRequest, caller: Option<UserId>, rows: map<ToDoId, ToDo>, id: ToDoId, userIds: set<nat>)
    requires req.status.Some? && req.status.value in {"archived", "not_started", "cancelled"}
    ensures StoreRulesHold(req) ==> StoreRow(req, caller, userIds) == Err(ServerError)
    ensures caller.Some? && Owns(rows, caller.value, id) && UpdateRulesHold(req) ==>
      UpdateRow(rows, caller, id, req, userIds) == Err(ServerError)
  {
  }

  /** A body that passes `store`'s rules can still end in an uncaught error:
      when it leaves out the `description` or `due_date` key, or carries a
      due date the TIMESTAMP column cannot hold. */
  lemma ValidatedButUnstorable(req: ToDoRequest, caller: Option<UserId>, userIds: set<nat>)
    requires StoreRulesHold(req)
    ensures req.description.None? ==> StoreRow(req, caller, userIds) == Err(ServerError)
    ensures req.dueDate.None? ==> StoreRow(req, caller, userIds) == Err(ServerError)
    ensures req.dueDate == Some(Some(TimestampMax + 1)) ==> StoreRow(req, caller, userIds) == Err(ServerError)
  {
  }

  /** Applying the same partial update twice changes nothing more, and an
      update that names no field leaves the row as it was. */
  lemma PatchIdempotent(row: ToDo, req: ToDoRequest)
    ensures Patch(Patch(row, req), req) == Patch(row, req)
    ensures Patch(row, ToDoRequest(None, None, None, None, None, None, req.userId)) == row
  {
  }

  /** Round trip: a stored row is shown to its owner with every field
      the request gave. */
  lemma StoreThenShow(rows: map<ToDoId, ToDo>, req: ToDoRequest, caller: UserId, userIds: set<nat>, id: ToDoId)
    requires StoreRow(req, Some(caller), userIds).Ok?
    ensures var row := StoreRow(req, Some(caller), userIds).value;
      && Show(rows[id := row], Some(caller), id) == Ok(row)
      && row.title == req.title.value && row.description == req.description.value
      && row.dueDate == req.dueDate.value && row.priority == req.priority.value
      && row.status == req.status.value
  {
  }
}
