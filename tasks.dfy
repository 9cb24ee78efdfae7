/** The task entity, the form input and the task table, as the task controller sees them. */
module TaskModel {

  datatype Option<+T> = None | Some(value: T)

  /** Row identifiers, assigned by the database from an auto-increment counter. */
  type TaskId = nat

  /** The authenticated user; two users are the same exactly when their identities are. */
  type UserId = nat

  /** A creation time; only its order matters to the controller. */
  type Timestamp = int

  datatype Task = Task(
    id: TaskId,
    title: string,
    description: Option<string>,
    isCompleted: bool,
    createdBy: UserId,
    createdAt: Timestamp)

  /** The three fields the task form binds onto a task: title, description and isCompleted. */
  datatype TaskFields = TaskFields(title: string, description: Option<string>, isCompleted: bool)

  /** What the form framework reports for one request: whether the form was submitted,
      whether it passed validation, and the field values it bound. */
  datatype FormInput = FormInput(submitted: bool, valid: bool, fields: TaskFields)
  {
    predicate Accepted() { submitted && valid }
  }

  /** The task table: every stored task under its own id, and the next id the
      auto-increment counter will hand out (ids are never reused). */
  datatype Store = Store(tasks: map<TaskId, Task>, nextId: nat)
  {
    predicate Valid() {
      Keyed(tasks) && forall id :: id in tasks ==> id < nextId
    }
  }

  /** Every task is stored under its own id. */
  predicate Keyed(tasks: map<TaskId, Task>) {
    forall id :: id in tasks ==> tasks[id].id == id
  }

  /** The ownership guard every action on an existing task applies first. */
  predicate OwnedBy(t: Task, user: UserId) {
    t.createdBy == user
  }

  /** The task after the form has bound its fields onto it. */
  function Bind(t: Task, f: TaskFields): Task {
    t.(title := f.title, description := f.description, isCompleted := f.isCompleted)
  }

  /** The task with its completed flag negated. */
  function Toggled(t: Task): Task {
    t.(isCompleted := !t.isCompleted)
  }
}
