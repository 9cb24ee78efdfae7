/** The task controller over the task table it reads and writes in place. The current
    user, the request's form, token and time are parameters of each action. */
module Controller {
  import opened TaskModel
  import opened TaskListing
  import opened CsrfIntents
  import opened TaskActions

  class TaskController {
    /** The task table, keyed by id. */
    var tasks: map<TaskId, Task>
    /** The id the auto-increment counter hands out next. */
    var nextId: nat

    function State(): Store
      reads this
    {
      Store(tasks, nextId)
    }

    predicate Valid()
      reads this
    {
      State().Valid()
    }

    /** An empty table; the counter starts at 1. */
    constructor ()
      ensures Valid() && tasks == map[] && nextId == 1
    {
      tasks := map[];
      nextId := 1;
    }

    /** The index: the user's tasks, each once, newest first. */
    method Index(user: UserId) returns (r: Response)
      requires Valid()
      ensures r.TaskList?
      ensures NewestFirst(r.tasks)
      ensures multiset(r.tasks) == multiset(OwnedTasks(tasks, user))
    {
      r := TaskList(Listing(State(), user));
    }

    /** Showing one task, to its owner only. */
    method Show(user: UserId, id: TaskId) returns (r: Response)
      ensures r == ShowAction(State(), user, id)
      ensures r.TaskView? <==> id in tasks && OwnedBy(tasks[id], user)
    {
      if id !in tasks {
        return NotFound;
      }
      var task := tasks[id];
      if task.createdBy != user {
        return AccessDenied(DenyShowMessage);
      }
      r := TaskView(task);
    }

    /** Creating a task from an accepted form, owned by the current user. */
    method New(user: UserId, form: FormInput, now: Timestamp) returns (r: Response)
      requires Valid()
      modifies this
      ensures Valid()
      ensures Outcome(State(), r) == NewAction(old(State()), user, form, now)
    {
      if form.submitted && form.valid {
        var f := form.fields;
        var task := Task(nextId, f.title, f.description, f.isCompleted, user, now);
        tasks := tasks[nextId := task];
        nextId := nextId + 1;
        r := Redirect(Some(CreatedMessage));
      } else {
        r := FormRedisplay;
      }
    }

    /** Editing a task the current user owns from an accepted form. */
    method Edit(user: UserId, id: TaskId, form: FormInput) returns (r: Response)
      requires Valid()
      modifies this
      ensures Valid()
      ensures Outcome(State(), r) == EditAction(old(State()), user, id, form)
    {
      if id !in tasks {
        return NotFound;
      }
      var task := tasks[id];
      if task.createdBy != user {
        return AccessDenied(DenyEditMessage);
      }
      if form.submitted && form.valid {
        tasks := tasks[id := Bind(task, form.fields)];
        r := Redirect(Some(UpdatedMessage));
      } else {
        r := FormRedisplay;
      }
    }

    /** Deleting a task the current user owns, when the token is valid for its delete intent. */
    method Delete(user: UserId, id: TaskId, token: string, tokenValid: TokenCheck) returns (r: Response)
      requires Valid()
      modifies this
      ensures Valid()
      ensures Outcome(State(), r) == DeleteAction(old(State()), user, id, token, tokenValid)
    {
      if id !in tasks {
        return NotFound;
      }
      var task := tasks[id];
      if task.createdBy != user {
        return AccessDenied(DenyDeleteMessage);
      }
      r := Redirect(None);
      if tokenValid(DeleteIntent(task.id), token) {
        tasks := tasks - {id};
        r := Redirect(Some(DeletedMessage));
      }
    }

    /** Toggling a task the current user owns, when the token is valid for its toggle intent. */
    method Toggle(user: UserId, id: TaskId, token: string, tokenValid: TokenCheck) returns (r: Response)
      requires Valid()
      modifies this
      ensures Valid()
      ensures Outcome(State(), r) == ToggleAction(old(State()), user, id, token, tokenValid)
    {
      if id !in tasks {
        return NotFound;
      }
      var task := tasks[id];
      if task.createdBy != user {
        return AccessDenied(DenyToggleMessage);
      }
      r := Redirect(None);
      if tokenValid(ToggleIntent(task.id), token) {
        var toggled := Toggled(task);
        tasks := tasks[id := toggled];
        r := Redirect(Some(ToggleFlash(toggled.isCompleted)));
      }
    }
  }
}
