/** The task index: the current user's tasks, newest first. */
module TaskListing {
  import opened TaskModel

  /** Non-increasing in creation time. */
  predicate NewestFirst(s: seq<Task>) {
    forall i, j :: 0 <= i < j < |s| ==> s[i].createdAt >= s[j].createdAt
  }

  /** The set of stored tasks whose owner is `user`. */
  ghost function OwnedTasks(tasks: map<TaskId, Task>, user: UserId): set<Task> {
    set id | id in tasks && tasks[id].createdBy == user :: tasks[id]
  }

  /** The owned tasks whose id lies below `n`. */
  ghost function OwnedBelow(tasks: map<TaskId, Task>, user: UserId, n: nat): set<Task> {
    set id | id in tasks && id < n && tasks[id].createdBy == user :: tasks[id]
  }

  /** The task stored under `id`, as a one-element sequence when `user` owns it. */
  function Slot(tasks: map<TaskId, Task>, user: UserId, id: TaskId): seq<Task> {
    if id in tasks && tasks[id].createdBy == user then [tasks[id]] else []
  }

  lemma MultisetOfSetAdd(a: set<Task>, x: Task)
    requires x !in a
    ensures multiset(a + {x}) == multiset(a) + multiset{x}
  {
  }

  /** The owned tasks with id below `n`, each once, in id order. */
  function OwnedUpTo(tasks: map<TaskId, Task>, user: UserId, n: nat): (r: seq<Task>)
    requires Keyed(tasks)
    ensures multiset(r) == multiset(OwnedBelow(tasks, user, n))
  {
    if n == 0 then
      assert OwnedBelow(tasks, user, n) == {};
      []
    else
      var prefix := OwnedUpTo(tasks, user, n - 1);
      var below := OwnedBelow(tasks, user, n - 1);
      if n - 1 in tasks && tasks[n - 1].createdBy == user then
        var t := tasks[n - 1];
        assert t !in below;
        assert OwnedBelow(tasks, user, n) == below + {t};
        MultisetOfSetAdd(below, t);
        prefix + Slot(tasks, user, n - 1)
      else
        assert OwnedBelow(tasks, user, n) == below;
        prefix + Slot(tasks, user, n - 1)
  }

  /** `t` inserted into a newest-first sequence before the first task that is not newer. */
  function InsertNewest(t: Task, s: seq<Task>): (r: seq<Task>)
    requires NewestFirst(s)
    ensures NewestFirst(r)
    ensures multiset(r) == multiset(s) + multiset{t}
    ensures |r| == |s| + 1 && (r[0] == t || (s != [] && r[0] == s[0]))
  {
    if s == [] || t.createdAt >= s[0].createdAt then
      [t] + s
    else
      var rest := InsertNewest(t, s[1..]);
      assert s == [s[0]] + s[1..];
      [s[0]] + rest
  }

  /** Insertion sort into newest-first order. */
  function SortNewestFirst(s: seq<Task>): (r: seq<Task>)
    ensures NewestFirst(r)
    ensures multiset(r) == multiset(s)
  {
    if s == [] then
      []
    else
      assert s == [s[0]] + s[1..];
      InsertNewest(s[0], SortNewestFirst(s[1..]))
  }

  /** The tasks the index shows to `user`: exactly the stored tasks that `user` owns,
      each once (a permutation of that set), ordered by creation time, newest first. */
  function Listing(s: Store, user: UserId): (r: seq<Task>)
    requires s.Valid()
    ensures NewestFirst(r)
    ensures multiset(r) == multiset(OwnedTasks(s.tasks, user))
  {
    assert OwnedBelow(s.tasks, user, s.nextId) == OwnedTasks(s.tasks, user);
    SortNewestFirst(OwnedUpTo(s.tasks, user, s.nextId))
  }

  /** A task is listed for `user` exactly when it is stored and `user` owns it; so the
      listing of one user never shows another user's task. */
  lemma ListingMembership(s: Store, user: UserId, t: Task)
    requires s.Valid()
    ensures t in Listing(s, user) <==> t.id in s.tasks && s.tasks[t.id] == t && t.createdBy == user
  {
    var r := Listing(s, user);
    assert t in r <==> t in multiset(r);
    assert t in OwnedTasks(s.tasks, user) <==> t in multiset(OwnedTasks(s.tasks, user));
    if t.id in s.tasks && s.tasks[t.id] == t && t.createdBy == user {
      assert t in OwnedTasks(s.tasks, user);
    }
  }

  /** No task appears twice in a listing. */
  lemma ListingHasNoDuplicates(s: Store, user: UserId, i: nat, j: nat)
    requires s.Valid()
    requires i < j < |Listing(s, user)|
    ensures Listing(s, user)[i] != Listing(s, user)[j]
  {
    var r := Listing(s, user);
    assert r == r[..j] + r[j..];
    assert r[i] in r[..j];
    assert r[j] in r[j..];
    assert multiset(r)[r[j]] == multiset(r[..j])[r[j]] + multiset(r[j..])[r[j]];
    assert multiset(OwnedTasks(s.tasks, user))[r[j]] <= 1;
  }
}
