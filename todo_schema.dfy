/** The `to_dos` table as its migration declares it: the row shape, the
    enumerated columns, the column defaults, and the foreign key to `users`
    with cascading delete. */
module ToDoSchema {
  import opened Http

  type ToDoId = nat

  /** A stored row. `description` and `due_date` are nullable; a due date is
      an instant in whole seconds. */
  datatype ToDo = ToDo(
    title: string,
    description: Option<string>,
    completed: bool,
    userId: nat,
    dueDate: Option<int>,
    priority: string,
    status: string)

  /** `string('title')`: a VARCHAR(255). */
  const TitleMax: nat := 255

  /** `enum('priority', ['low', 'medium', 'high'])`. */
  const Priorities: set<string> := {"low", "medium", "high"}

  /** `enum('status', ['pending', 'in_progress', 'completed'])`. */
  const Statuses: set<string> := {"pending", "in_progress", "completed"}

  const DefaultPriority: string := "medium"
  const DefaultStatus: string := "pending"

  /** `text('description')`: a MySQL TEXT holds at most 65535 bytes. */
  const TextMaxBytes: nat := 65535

  /** `timestamp('due_date')`: a MySQL TIMESTAMP spans the instants
      1970-01-01 00:00:01 to 2038-01-19 03:14:07 UTC, in seconds. */
  const TimestampMin: int := 1
  const TimestampMax: int := 2147483647

  /** The number of bytes a character takes in UTF-8 (utf8mb4). */
  function Utf8Width(c: char): (n: nat)
    ensures 1 <= n <= 4
    ensures n == 1 <==> c as int < 0x80
  {
    if c as int < 0x80 then 1
    else if c as int < 0x800 then 2
    else if c as int < 0x10000 then 3
    else 4
  }

  /** The number of bytes a string takes in UTF-8. */
  function Utf8Size(s: string): (n: nat)
    ensures |s| <= n <= 4 * |s|
  {
    if s == [] then 0 else Utf8Width(s[0]) + Utf8Size(s[1..])
  }

  /** A description the TEXT column can hold; NULL always fits. */
  predicate DescriptionFits(d: Option<string>) {
    d.None? || Utf8Size(d.value) <= TextMaxBytes
  }

  /** A due date the TIMESTAMP column can hold; NULL always fits. */
  predicate DueDateFits(d: Option<int>) {
    d.None? || TimestampMin <= d.value <= TimestampMax
  }

  /** The column constraints a stored row satisfies under MySQL's strict
      mode, apart from the foreign key. */
  predicate ColumnsConform(row: ToDo) {
    && |row.title| <= TitleMax
    && DescriptionFits(row.description)
    && DueDateFits(row.dueDate)
    && row.priority in Priorities
    && row.status in Statuses
  }

  /** A row the table can hold, given the ids present in `users`. */
  predicate RowConforms(row: ToDo, userIds: set<nat>) {
    ColumnsConform(row) && row.userId in userIds
  }

  predicate TableConforms(rows: map<ToDoId, ToDo>, userIds: set<nat>) {
    forall i :: i in rows ==> RowConforms(rows[i], userIds)
  }

  /** The columns an INSERT names; `None` marks a column it leaves out. */
  datatype Insert = Insert(
    title: string,
    description: Option<Option<string>>,
    completed: Option<bool>,
    userId: nat,
    dueDate: Option<Option<int>>,
    priority: Option<string>,
    status: Option<string>)

  /** The row an INSERT produces: every column left out takes its declared
      default (NULL for the nullable ones). */
  function WithDefaults(ins: Insert): (row: ToDo)
    ensures row.title == ins.title && row.userId == ins.userId
    ensures row.completed == (ins.completed.Some? && ins.completed.value)
    ensures row.priority == if ins.priority.Some? then ins.priority.value else DefaultPriority
    ensures row.status == if ins.status.Some? then ins.status.value else DefaultStatus
    ensures row.description == if ins.description.Some? then ins.description.value else None
    ensures row.dueDate == if ins.dueDate.Some? then ins.dueDate.value else None
  {
    ToDo(
      ins.title,
      if ins.description.Some? then ins.description.value else None,
      if ins.completed.Some? then ins.completed.value else false,
      ins.userId,
      if ins.dueDate.Some? then ins.dueDate.value else None,
      if ins.priority.Some? then ins.priority.value else DefaultPriority,
      if ins.status.Some? then ins.status.value else DefaultStatus)
  }

  /** The database runs an INSERT or UPDATE only when the resulting row
      satisfies every constraint; otherwise the query throws, which the
      controllers do not catch. */
  function Constrain(row: ToDo, userIds: set<nat>): (r: Result<ToDo>)
    ensures r.Ok? <==> RowConforms(row, userIds)
    ensures r.Ok? ==> r.value == row
    ensures r.Err? ==> r.error == ServerError
  {
    if RowConforms(row, userIds) then Ok(row) else Err(ServerError)
  }

  /** An INSERT naming only the title and the owner yields a row that is
      not completed, of medium priority, pending, with no description and
      no due date, and the table accepts it. */
  lemma DefaultsConform(title: string, userId: nat, userIds: set<nat>)
    requires |title| <= TitleMax && userId in userIds
    ensures var row := WithDefaults(Insert(title, None, None, userId, None, None, None));
      && Constrain(row, userIds) == Ok(row)
      && !row.completed && row.priority == "medium" && row.status == "pending"
      && row.description.None? && row.dueDate.None?
  {
  }

  /** `onDelete('cascade')`: deleting a user deletes exactly that user's
      rows and keeps every other row as it was. */
  function CascadeDelete(rows: map<ToDoId, ToDo>, userId: nat): (r: map<ToDoId, ToDo>)
    ensures forall i :: i in r <==> i in rows && rows[i].userId != userId
    ensures forall i :: i in r ==> r[i] == rows[i]
  {
    map i | i in rows && rows[i].userId != userId :: rows[i]
  }

  /** The cascade keeps the foreign key intact once the user is gone. */
  lemma CascadeKeepsForeignKey(rows: map<ToDoId, ToDo>, userIds: set<nat>, userId: nat)
    requires TableConforms(rows, userIds)
    ensures TableConforms(CascadeDelete(rows, userId), userIds - {userId})
  {
  }
}
