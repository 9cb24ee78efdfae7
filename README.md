# Task controller of a per-user to-do list

This project models the task controller of a small to-do list web application. A logged-in
user lists, creates, shows, edits, deletes and toggles their own tasks. Every action on an
existing task first checks that the current user owns it, and is refused otherwise. Deleting
and toggling also need a CSRF token issued for that action on that task. An invalid token
quietly does nothing.

The framework around the controller is reduced to inputs:

- the current user is a parameter of each action;
- the form framework's verdict is a `FormInput`: submitted, valid, and the three bound
  fields (title, description, isCompleted);
- the token manager is a function from intent and token to a verdict (`TokenCheck`);
- the creation time of a new task is a parameter (`now`);
- the task table is a map from id to task plus the auto-increment counter (`Store`).

Modules:

- `TaskModel` (tasks.dfy): the task entity, the form input, the task table and the ownership guard.
- `TaskListing` (listing.dfy): the index query. It keeps the stored tasks of one owner and
  sorts them newest first. Its contract: the result is a permutation of the owner's tasks,
  ordered by creation time, non-increasing.
- `CsrfIntents` (csrf.dfy): the intents `"delete"` or `"toggle"` followed by the decimal task
  id. The decimal rendering reads back to the id, so intents are per action and per task.
- `TaskActions` (actions.dfy): each action as a function from the table to the new table and
  the response. Lemmas relate several actions: toggling twice restores the table, deleting
  removes the task for everyone, a user's actions never change another user's listing,
  a new task heads its owner's listing, and one full task lifecycle.
- `Controller` (controller.dfy): the class `TaskController`. It holds the table in fields
  and updates them in place. Each method except `Index` is proved equal to the matching
  `TaskActions` function on the old state. `Index` has no `TaskActions` counterpart: its
  contract states the listing properties directly.

Three behaviours of the controller the model keeps:

- Creating a task takes `isCompleted` from the form's checkbox.
- A rejected form is rendered again (`FormRedisplay`) and raises no separate error.
- Title rules live on the entity, which is not part of this model, so "submitted and valid"
  is an input.

## Model

| member | source | states |
|---|---|---|
| `Controller.TaskController.Index` | src/Controller/TaskController.php:20-31 | the index answers a list that is a permutation of exactly the current user's stored tasks, ordered by creation time, newest first |
| `Controller.TaskController.Show` | src/Controller/TaskController.php:59-69 | the task is shown exactly when it exists and the current user owns it; otherwise not found or access denied |
| `Controller.TaskController.New` | src/Controller/TaskController.php:34-56 | the new table and response are those of `NewAction` on the old table, and the table stays well formed |
| `Controller.TaskController.Edit` | src/Controller/TaskController.php:72-94 | the new table and response are those of `EditAction` on the old table |
| `Controller.TaskController.Delete` | src/Controller/TaskController.php:97-112 | the new table and response are those of `DeleteAction` on the old table |
| `Controller.TaskController.Toggle` | src/Controller/TaskController.php:115-130 | the new table and response are those of `ToggleAction` on the old table |
| `TaskListing.Listing` | src/Controller/TaskController.php:23-26 | the listing is a permutation of the set of stored tasks whose `createdBy` is the user, non-increasing in `createdAt` |
| `TaskListing.OwnedUpTo` | src/Controller/TaskController.php:24 | the filter by owner yields each owned task below the id bound exactly once |
| `TaskListing.SortNewestFirst` | src/Controller/TaskController.php:25 | sorting by `createdAt` descending gives a non-increasing permutation of its input |
| `TaskListing.InsertNewest` | src/Controller/TaskController.php:25 | inserting into a newest-first sequence keeps it newest first and adds exactly that task |
| `TaskListing.ListingMembership` | src/Controller/TaskController.php:23-24 | a task is listed for a user exactly when it is stored and that user owns it; no other user's task is ever listed |
| `TaskListing.ListingHasNoDuplicates` | src/Controller/TaskController.php:23-26 | no task is listed twice |
| `CsrfIntents.IdString` | src/Controller/TaskController.php:104 | the id in an intent is written as a non-empty string of decimal digits without a leading zero |
| `CsrfIntents.DecimalRoundTrip` | src/Controller/TaskController.php:104 | reading the decimal rendering of an id back gives the id |
| `CsrfIntents.IdStringInjective` | src/Controller/TaskController.php:122 | two ids render the same exactly when they are equal |
| `CsrfIntents.IntentsPerActionAndTask` | src/Controller/TaskController.php:104-122 | a delete intent is never a toggle intent, and two intents of one action are equal exactly when their task ids are |
| `TaskActions.ShowAction` | src/Controller/TaskController.php:62-68 | not found exactly for a missing id; the task is shown exactly to its owner; anyone else gets access denied with the show message |
| `TaskActions.NewAction` | src/Controller/TaskController.php:40-55 | an accepted form adds one task under a fresh id, owned by the current user, created now, with the form's fields, leaves every other task unchanged and redirects with the created flash; otherwise the table is unchanged and the form is shown again |
| `TaskActions.EditAction` | src/Controller/TaskController.php:75-93 | a non-owner gets access denied and nothing changes; for the owner, an accepted form sets title, description and isCompleted, keeps id, owner and creation time and every other task, and redirects with the updated flash; otherwise nothing changes and the form is shown again |
| `TaskActions.DeleteAction` | src/Controller/TaskController.php:100-111 | a non-owner gets access denied and nothing changes; for the owner, a token valid for `"delete"+id` removes exactly that task and flashes; an invalid token changes nothing and still redirects, without a flash |
| `TaskActions.ToggleAction` | src/Controller/TaskController.php:118-129 | a non-owner gets access denied and nothing changes; for the owner, a token valid for `"toggle"+id` negates only that task's `isCompleted`, and the flash says completed exactly when the new state is completed and pending otherwise; an invalid token changes nothing and gives no flash |
| `TaskActions.TwoTogglesRestore` | src/Controller/TaskController.php:122-126 | two successful toggles restore the table, and their two flashes differ |
| `TaskActions.DeletedTaskIsGone` | src/Controller/TaskController.php:104-106 | after a successful delete, showing the task is not found for anyone and no listing holds its id |
| `TaskActions.InvalidDeleteTokenKeepsTask` | src/Controller/TaskController.php:104-111 | a delete with an invalid token redirects without a flash, and the owner still sees the task |
| `TaskActions.DeleteTokenIsBoundToItsTask` | src/Controller/TaskController.php:104-122 | a token valid only for deleting one task toggles nothing and deletes no other task |
| `TaskActions.NewIsolatesUsers` | src/Controller/TaskController.php:42-45 | creating a task never changes another user's listing |
| `TaskActions.EditIsolatesUsers` | src/Controller/TaskController.php:75-83 | editing never changes another user's listing |
| `TaskActions.DeleteIsolatesUsers` | src/Controller/TaskController.php:100-106 | deleting never changes another user's listing |
| `TaskActions.ToggleIsolatesUsers` | src/Controller/TaskController.php:118-124 | toggling never changes another user's listing |
| `TaskActions.NewTaskListedFirst` | src/Controller/TaskController.php:23-26 | a task created later than every stored task is first in its owner's listing |
| `TaskActions.EditIsShown` | src/Controller/TaskController.php:79-83 | after an accepted edit, the owner is shown the task with the form's fields bound onto it |
| `TaskActions.TaskLifecycle` | src/Controller/TaskController.php:20-130 | create "Write report", find it first in the index, mark it completed, rename it, delete it, and then find it gone |

## Left out

- Rendering, Twig templates, routes and HTTP status codes are presentation. The model keeps which page or redirect is answered, and the flash text.
- Every flash has the type `success` and every redirect goes to the index. The model keeps only the flash message.
- Authentication (`IsGranted('ROLE_USER')`, `getUser()`) is outside the controller. The current user is a given parameter.
- Users are compared with `!==`, which is object identity. The entity manager loads one object per user row, so the model compares user ids.
- CSRF token issuing and checking belong to the token manager. It is a function parameter. The model fixes only the intent string each action checks.
- Entity-manager mechanics (`persist`, `remove`, `flush`, transactions) are not modelled. The table is a map, and ids come from a counter that starts at 1 and is never reused.
- Form request binding and the entity's validation constraints are not modelled. "Submitted" and "valid" are inputs, and no title rule is assumed.
- On an invalid edit, the framework binds the submitted values onto the loaded entity but never flushes them. The model leaves the table unchanged.
- The route's task lookup happens before the controller runs. A missing id gives the `NotFound` response.
- `src/Form/TaskType.php` is widget and label configuration. It is used only to decide which fields `New` and `Edit` write: title, description and isCompleted.
- The entity sets `createdAt` at creation, and the entity is not part of this model. `createdAt` is the `now` parameter of `New` and never changes afterwards.
- `TaskListing.Listing`: the database's order among tasks with equal `createdAt` is unspecified. The contract says only that the listing is non-increasing, and the model breaks ties in its own way.
