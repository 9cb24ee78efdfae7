/** The task controller's actions as functions from the task table (and the request's
    inputs) to the new table and the response, with the properties that relate them. */
module TaskActions {
  import opened TaskModel
  import opened TaskListing
  import opened CsrfIntents

  // Flash messages shown after a successful change.
  const CreatedMessage := "Tarea creada exitosamente."
  const UpdatedMessage := "Tarea actualizada exitosamente."
  const DeletedMessage := "Tarea eliminada exitosamente."
  const CompletedMessage := "Tarea marcada como completada."
  const PendingMessage := "Tarea marcada como pendiente."

  // Messages of the access-denied errors, one per action.
  const DenyShowMessage := "No tienes permiso para ver esta tarea."
  const DenyEditMessage := "No tienes permiso para editar esta tarea."
  const DenyDeleteMessage := "No tienes permiso para eliminar esta tarea."
  const DenyToggleMessage := "No tienes permiso para modificar esta tarea."

  /** What an action answers: the index or a task rendered, the form rendered again,
      a redirect to the index with an optional success flash, an access-denied error,
      or a not-found error when the id in the route names no task. */
  datatype Response =
    | TaskList(tasks: seq<Task>)
    | TaskView(task: Task)
    | FormRedisplay
    | Redirect(flash: Option<string>)
    | AccessDenied(message: string)
    | NotFound

  datatype Outcome = Outcome(store: Store, response: Response)

  /** The token manager's verdict on a submitted token for an intent. */
  type TokenCheck = (string, string) -> bool

  /** The flash message after a toggle, chosen by the task's new state. */
  function ToggleFlash(completed: bool): string {
    if completed then CompletedMessage else PendingMessage
  }

  /** Showing a task: only its owner sees it. */
  function ShowAction(s: Store, user: UserId, id: TaskId): (r: Response)
    ensures r.NotFound? <==> id !in s.tasks
    ensures r.TaskView? <==> id in s.tasks && OwnedBy(s.tasks[id], user)
    ensures r.TaskView? ==> r.task == s.tasks[id]
    ensures r.AccessDenied? ==> r.message == DenyShowMessage
    ensures r.NotFound? || r.TaskView? || r.AccessDenied?
  {
    if id !in s.tasks then NotFound
    else if !OwnedBy(s.tasks[id], user) then AccessDenied(DenyShowMessage)
    else TaskView(s.tasks[id])
  }

  /** Creating a task: an accepted form adds one task, under a fresh id, owned by the
      current user and stamped with the current time; anything else changes nothing. */
  function NewAction(s: Store, user: UserId, form: FormInput, now: Timestamp): (o: Outcome)
    requires s.Valid()
    ensures o.store.Valid()
    ensures !form.Accepted() ==> o == Outcome(s, FormRedisplay)
    ensures form.Accepted() ==>
      && o.response == Redirect(Some(CreatedMessage))
      && s.nextId !in s.tasks
      && o.store.tasks.Keys == s.tasks.Keys + {s.nextId}
      && (forall id :: id in s.tasks ==> o.store.tasks[id] == s.tasks[id])
      && o.store.tasks[s.nextId].id == s.nextId
      && o.store.tasks[s.nextId].createdBy == user
      && o.store.tasks[s.nextId].createdAt == now
      && o.store.tasks[s.nextId].title == form.fields.title
      && o.store.tasks[s.nextId].description == form.fields.description
      && o.store.tasks[s.nextId].isCompleted == form.fields.isCompleted
  {
    if form.Accepted() then
      var f := form.fields;
      var task := Task(s.nextId, f.title, f.description, f.isCompleted, user, now);
      Outcome(Store(s.tasks[s.nextId := task], s.nextId + 1), Redirect(Some(CreatedMessage)))
    else
      Outcome(s, FormRedisplay)
  }

  /** Editing a task: only its owner may, and only an accepted form changes it; the form
      writes title, description and isCompleted, while id, owner and creation time stay. */
  function EditAction(s: Store, user: UserId, id: TaskId, form: FormInput): (o: Outcome)
    requires s.Valid()
    ensures o.store.Valid()
    ensures id !in s.tasks ==> o == Outcome(s, NotFound)
    ensures id in s.tasks && !OwnedBy(s.tasks[id], user) ==> o == Outcome(s, AccessDenied(DenyEditMessage))
    ensures id in s.tasks && OwnedBy(s.tasks[id], user) && !form.Accepted() ==> o == Outcome(s, FormRedisplay)
    ensures id in s.tasks && OwnedBy(s.tasks[id], user) && form.Accepted() ==>
      && o.response == Redirect(Some(UpdatedMessage))
      && o.store.nextId == s.nextId
      && o.store.tasks.Keys == s.tasks.Keys
      && (forall k :: k in s.tasks && k != id ==> o.store.tasks[k] == s.tasks[k])
      && o.store.tasks[id].id == s.tasks[id].id
      && o.store.tasks[id].createdBy == s.tasks[id].createdBy
      && o.store.tasks[id].createdAt == s.tasks[id].createdAt
      && o.store.tasks[id].title == form.fields.title
      && o.store.tasks[id].description == form.fields.description
      && o.store.tasks[id].isCompleted == form.fields.isCompleted
  {
    if id !in s.tasks then Outcome(s, NotFound)
    else if !OwnedBy(s.tasks[id], user) then Outcome(s, AccessDenied(DenyEditMessage))
    else if !form.Accepted() then Outcome(s, FormRedisplay)
    else Outcome(s.(tasks := s.tasks[id := Bind(s.tasks[id], form.fields)]), Redirect(Some(UpdatedMessage)))
  }

  /** Deleting a task: only its owner may; with a token valid for this task's delete
      intent exactly that task goes, otherwise nothing changes and the answer is still
      a redirect, without a flash. */
  function DeleteAction(s: Store, user: UserId, id: TaskId, token: string, tokenValid: TokenCheck): (o: Outcome)
    requires s.Valid()
    ensures o.store.Valid()
    ensures id !in s.tasks ==> o == Outcome(s, NotFound)
    ensures id in s.tasks && !OwnedBy(s.tasks[id], user) ==> o == Outcome(s, AccessDenied(DenyDeleteMessage))
    ensures id in s.tasks && OwnedBy(s.tasks[id], user) && !tokenValid(DeleteIntent(id), token) ==>
      o == Outcome(s, Redirect(None))
    ensures id in s.tasks && OwnedBy(s.tasks[id], user) && tokenValid(DeleteIntent(id), token) ==>
      && o.response == Redirect(Some(DeletedMessage))
      && o.store.nextId == s.nextId
      && o.store.tasks.Keys == s.tasks.Keys - {id}
      && (forall k :: k in o.store.tasks ==> o.store.tasks[k] == s.tasks[k])
  {
    if id !in s.tasks then Outcome(s, NotFound)
    else if !OwnedBy(s.tasks[id], user) then Outcome(s, AccessDenied(DenyDeleteMessage))
    else if tokenValid(DeleteIntent(id), token) then
      Outcome(s.(tasks := s.tasks - {id}), Redirect(Some(DeletedMessage)))
    else
      Outcome(s, Redirect(None))
  }

  /** Toggling a task: only its owner may; with a token valid for this task's toggle
      intent its completed flag is negated and nothing else changes, and the flash says
      which state it is now in; otherwise nothing changes and there is no flash. */
  function ToggleAction(s: Store, user: UserId, id: TaskId, token: string, tokenValid: TokenCheck): (o: Outcome)
    requires s.Valid()
    ensures o.store.Valid()
    ensures id !in s.tasks ==> o == Outcome(s, NotFound)
    ensures id in s.tasks && !OwnedBy(s.tasks[id], user) ==> o == Outcome(s, AccessDenied(DenyToggleMessage))
    ensures id in s.tasks && OwnedBy(s.tasks[id], user) && !tokenValid(ToggleIntent(id), token) ==>
      o == Outcome(s, Redirect(None))
    ensures id in s.tasks && OwnedBy(s.tasks[id], user) && tokenValid(ToggleIntent(id), token) ==>
      && o.store.nextId == s.nextId
      && o.store.tasks.Keys == s.tasks.Keys
      && (forall k :: k in s.tasks && k != id ==> o.store.tasks[k] == s.tasks[k])
      && o.store.tasks[id].isCompleted == !s.tasks[id].isCompleted
      && o.store.tasks[id].id == s.tasks[id].id
      && o.store.tasks[id].title == s.tasks[id].title
      && o.store.tasks[id].description == s.tasks[id].description
      && o.store.tasks[id].createdBy == s.tasks[id].createdBy
      && o.store.tasks[id].createdAt == s.tasks[id].createdAt
      && (o.response == Redirect(Some(CompletedMessage)) <==> o.store.tasks[id].isCompleted)
      && (o.response == Redirect(Some(PendingMessage)) <==> !o.store.tasks[id].isCompleted)
  {
    if id !in s.tasks then Outcome(s, NotFound)
    else if !OwnedBy(s.tasks[id], user) then Outcome(s, AccessDenied(DenyToggleMessage))
    else if tokenValid(ToggleIntent(id), token) then
      var t := Toggled(s.tasks[id]);
      Outcome(s.(tasks := s.tasks[id := t]), Redirect(Some(ToggleFlash(t.isCompleted))))
    else
      Outcome(s, Redirect(None))
  }

  /** Two successful toggles restore the table, and their flashes differ. */
  lemma TwoTogglesRestore(s: Store, user: UserId, id: TaskId, token: string, tokenValid: TokenCheck)
    requires s.Valid() && id in s.tasks && OwnedBy(s.tasks[id], user)
    requires tokenValid(ToggleIntent(id), token)
    ensures ToggleAction(ToggleAction(s, user, id, token, tokenValid).store, user, id, token, tokenValid).store == s
    ensures ToggleAction(ToggleAction(s, user, id, token, tokenValid).store, user, id, token, tokenValid).response
         != ToggleAction(s, user, id, token, tokenValid).response
  {
  }

  /** After a successful delete the task is gone: showing it is not found, for anyone,
      and no listing contains a task with its id. */
  lemma DeletedTaskIsGone(s: Store, user: UserId, id: TaskId, token: string, tokenValid: TokenCheck,
                          viewer: UserId, t: Task)
    requires s.Valid() && id in s.tasks && OwnedBy(s.tasks[id], user)
    requires tokenValid(DeleteIntent(id), token)
    ensures ShowAction(DeleteAction(s, user, id, token, tokenValid).store, viewer, id) == NotFound
    ensures t in Listing(DeleteAction(s, user, id, token, tokenValid).store, viewer) ==> t.id != id
  {
    var o := DeleteAction(s, user, id, token, tokenValid);
    ListingMembership(o.store, viewer, t);
  }

  /** A delete with an invalid token leaves the task where it was, visible to its owner,
      and raises no error. */
  lemma InvalidDeleteTokenKeepsTask(s: Store, user: UserId, id: TaskId, token: string, tokenValid: TokenCheck)
    requires s.Valid() && id in s.tasks && OwnedBy(s.tasks[id], user)
    requires !tokenValid(DeleteIntent(id), token)
    ensures DeleteAction(s, user, id, token, tokenValid).response == Redirect(None)
    ensures ShowAction(DeleteAction(s, user, id, token, tokenValid).store, user, id) == TaskView(s.tasks[id])
  {
  }

  /** A token that was valid only for deleting task `a` cannot toggle any task, nor
      delete any other task. */
  lemma DeleteTokenIsBoundToItsTask(s: Store, user: UserId, a: TaskId, b: TaskId, token: string,
                                    tokenValid: TokenCheck)
    requires s.Valid()
    requires forall intent :: tokenValid(intent, token) ==> intent == DeleteIntent(a)
    ensures ToggleAction(s, user, b, token, tokenValid).store == s
    ensures b != a ==> DeleteAction(s, user, b, token, tokenValid).store == s
  {
    IntentsPerActionAndTask(a, b);
  }

  /** The listing of a user in terms of the id-ordered owned tasks below the counter. */
  lemma {:induction false} OwnedUpToAgree(m1: map<TaskId, Task>, m2: map<TaskId, Task>, user: UserId, n: nat)
    requires Keyed(m1) && Keyed(m2)
    requires forall k: nat :: k < n ==> Slot(m1, user, k) == Slot(m2, user, k)
    ensures OwnedUpTo(m1, user, n) == OwnedUpTo(m2, user, n)
  {
    if n > 0 {
      OwnedUpToAgree(m1, m2, user, n - 1);
      assert Slot(m1, user, n - 1) == Slot(m2, user, n - 1);
    }
  }

  /** A change confined to one task of `user` does not change what `other` is listed. */
  lemma ListingUnchangedForOthers(s: Store, s': Store, user: UserId, other: UserId, id: TaskId)
    requires s.Valid() && s'.Valid() && s'.nextId == s.nextId && user != other
    requires id in s.tasks && OwnedBy(s.tasks[id], user)
    requires id in s'.tasks ==> OwnedBy(s'.tasks[id], user)
    requires forall k :: k in s'.tasks && k != id <==> k in s.tasks && k != id
    requires forall k :: k in s.tasks && k != id ==> s'.tasks[k] == s.tasks[k]
    ensures Listing(s', other) == Listing(s, other)
  {
    forall k: nat | k < s.nextId
      ensures Slot(s.tasks, other, k) == Slot(s'.tasks, other, k)
    {
      if k == id {
      } else if k in s.tasks {
      }
    }
    OwnedUpToAgree(s.tasks, s'.tasks, other, s.nextId);
  }

  /** Ownership isolates users: whatever a user changes through an action, another
      user's listing stays exactly as it was. The four lemmas below are that statement
      for creating, editing, deleting and toggling. */
  lemma NewIsolatesUsers(s: Store, user: UserId, other: UserId, form: FormInput, now: Timestamp)
    requires s.Valid() && user != other
    ensures Listing(NewAction(s, user, form, now).store, other) == Listing(s, other)
  {
    if form.Accepted() {
      var s' := NewAction(s, user, form, now).store;
      ListingUnchangedByForeignAdd(s, s'.tasks[s.nextId], other);
    }
  }

  /** Adding a task of someone else under the next id does not change what `other` is listed. */
  lemma ListingUnchangedByForeignAdd(s: Store, t: Task, other: UserId)
    requires s.Valid() && t.id == s.nextId && t.createdBy != other
    ensures Listing(Store(s.tasks[s.nextId := t], s.nextId + 1), other) == Listing(s, other)
  {
    var m := s.tasks[s.nextId := t];
    SlotsAgreeAfterForeignAdd(s, t, other);
    OwnedUpToAgree(s.tasks, m, other, s.nextId + 1);
    assert Slot(s.tasks, other, s.nextId) == [];
    assert OwnedUpTo(s.tasks, other, s.nextId + 1) == OwnedUpTo(s.tasks, other, s.nextId);
  }

  lemma SlotsAgreeAfterForeignAdd(s: Store, t: Task, other: UserId)
    requires s.Valid() && t.createdBy != other
    ensures forall k: nat :: k < s.nextId + 1 ==> Slot(s.tasks, other, k) == Slot(s.tasks[s.nextId := t], other, k)
  {
  }

  lemma EditIsolatesUsers(s: Store, user: UserId, other: UserId, id: TaskId, form: FormInput)
    requires s.Valid() && user != other
    ensures Listing(EditAction(s, user, id, form).store, other) == Listing(s, other)
  {
    if id in s.tasks && OwnedBy(s.tasks[id], user) {
      ListingUnchangedForOthers(s, EditAction(s, user, id, form).store, user, other, id);
    }
  }

  lemma DeleteIsolatesUsers(s: Store, user: UserId, other: UserId, id: TaskId, token: string,
                            tokenValid: TokenCheck)
    requires s.Valid() && user != other
    ensures Listing(DeleteAction(s, user, id, token, tokenValid).store, other) == Listing(s, other)
  {
    if id in s.tasks && OwnedBy(s.tasks[id], user) {
      ListingUnchangedForOthers(s, DeleteAction(s, user, id, token, tokenValid).store, user, other, id);
    }
  }

  lemma ToggleIsolatesUsers(s: Store, user: UserId, other: UserId, id: TaskId, token: string,
                            tokenValid: TokenCheck)
    requires s.Valid() && user != other
    ensures Listing(ToggleAction(s, user, id, token, tokenValid).store, other) == Listing(s, other)
  {
    if id in s.tasks && OwnedBy(s.tasks[id], user) {
      ListingUnchangedForOthers(s, ToggleAction(s, user, id, token, tokenValid).store, user, other, id);
    }
  }

  /** A task created later than every stored task heads its owner's listing. */
  lemma NewTaskListedFirst(s: Store, user: UserId, form: FormInput, now: Timestamp)
    requires s.Valid() && form.Accepted()
    requires forall id :: id in s.tasks ==> s.tasks[id].createdAt < now
    ensures Listing(NewAction(s, user, form, now).store, user) != []
    ensures Listing(NewAction(s, user, form, now).store, user)[0] == NewAction(s, user, form, now).store.tasks[s.nextId]
  {
    var s' := NewAction(s, user, form, now).store;
    var t := s'.tasks[s.nextId];
    var r := Listing(s', user);
    ListingMembership(s', user, t);
    var k :| 0 <= k < |r| && r[k] == t;
    ListingMembership(s', user, r[0]);
  }

  /** The edited task is what its owner is shown afterwards. */
  lemma EditIsShown(s: Store, user: UserId, id: TaskId, form: FormInput)
    requires s.Valid() && id in s.tasks && OwnedBy(s.tasks[id], user) && form.Accepted()
    ensures ShowAction(EditAction(s, user, id, form).store, user, id) == TaskView(Bind(s.tasks[id], form.fields))
  {
  }

  /** One pass through a task's life: create "Write report", see it first in the index,
      mark it completed, rename it "Write final report", delete it, and find it gone. */
  lemma TaskLifecycle(s0: Store, user: UserId, now: Timestamp, create: FormInput, rename: FormInput,
                      toggleToken: string, deleteToken: string, tokenValid: TokenCheck)
    requires s0.Valid()
    requires forall id :: id in s0.tasks ==> s0.tasks[id].createdAt < now
    requires create == FormInput(true, true, TaskFields("Write report", None, false))
    requires rename == FormInput(true, true, TaskFields("Write final report", None, true))
    requires tokenValid(ToggleIntent(s0.nextId), toggleToken)
    requires tokenValid(DeleteIntent(s0.nextId), deleteToken)
    ensures var id := s0.nextId;
            var s1 := NewAction(s0, user, create, now).store;
            var o2 := ToggleAction(s1, user, id, toggleToken, tokenValid);
            var s3 := EditAction(o2.store, user, id, rename).store;
            var s4 := DeleteAction(s3, user, id, deleteToken, tokenValid).store;
            && Listing(s1, user) != [] && Listing(s1, user)[0].title == "Write report"
            && o2.response == Redirect(Some(CompletedMessage))
            && ShowAction(s3, user, id).TaskView?
            && ShowAction(s3, user, id).task.title == "Write final report"
            && ShowAction(s4, user, id) == NotFound
  {
    NewTaskListedFirst(s0, user, create, now);
  }
}
