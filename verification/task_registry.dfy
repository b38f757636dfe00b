/** The per-user background-task registries: a dictionary from
    "{user_id}_{server_id}" to the running task. Starting a task cancels and
    replaces whatever the key held; a task's `finally` deletes the key without
    checking that the entry is still its own. */
module TaskRegistry {
  import opened Chars
  import opened Strings

  /** An asyncio task, identified by a number. */
  type Handle = nat

  /** The dictionary of running tasks, and the tasks `cancel()` was called on. */
  datatype Registry = Registry(tasks: map<string, Handle>, cancelled: set<Handle>)

  const EmptyRegistry := Registry(map[], {})

  /** `f"{user_id}_{server_id}"` */
  function TaskKey(user: nat, server: nat): (key: string)
    ensures HasPrefix(key, NatToString(user))
  {
    NatToString(user) + "_" + NatToString(server)
  }

  /** Different (user, server) pairs never share a key: the first '_' ends the
      user id. */
  lemma TaskKeyInjective(u1: nat, s1: nat, u2: nat, s2: nat)
    requires TaskKey(u1, s1) == TaskKey(u2, s2)
    ensures u1 == u2 && s1 == s2
  {
    var a, c := NatToString(u1), NatToString(u2);
    assert '_' !in a;
    assert '_' !in c;
    SplitAtFirst(a, NatToString(s1), c, NatToString(s2), '_');
    NatToStringInjective(u1, u2);
    NatToStringInjective(s1, s2);
  }

  /** Starting a task under `key`: the previous one, if any, is cancelled and
      the new one takes its place. */
  function Register(r: Registry, key: string, h: Handle): (r': Registry)
    ensures key in r'.tasks && r'.tasks[key] == h
    ensures forall k :: k != key ==> (k in r'.tasks <==> k in r.tasks)
    ensures forall k :: k != key && k in r.tasks ==> r'.tasks[k] == r.tasks[k]
    ensures key in r.tasks ==> r'.cancelled == r.cancelled + {r.tasks[key]}
    ensures key !in r.tasks ==> r'.cancelled == r.cancelled
  {
    var cancelled := if key in r.tasks then r.cancelled + {r.tasks[key]} else r.cancelled;
    Registry(r.tasks[key := h], cancelled)
  }

  /** A task's `finally`: `if task_key in tasks: del tasks[task_key]`, whichever
      task the key now holds. */
  function Release(r: Registry, key: string): (r': Registry)
    ensures key !in r'.tasks
    ensures forall k :: k != key ==> (k in r'.tasks <==> k in r.tasks)
    ensures forall k :: k != key && k in r.tasks ==> r'.tasks[k] == r.tasks[k]
    ensures r'.cancelled == r.cancelled
  {
    if key in r.tasks then Registry(r.tasks - {key}, r.cancelled) else r
  }

  /** `cancel_training`: cancels and forgets the key's task; reports whether
      there was one. */
  function Cancel(r: Registry, key: string): (res: (Registry, bool))
    ensures res.1 <==> key in r.tasks
    ensures key !in res.0.tasks
    ensures forall k :: k != key ==> (k in res.0.tasks <==> k in r.tasks)
    ensures forall k :: k != key && k in r.tasks ==> res.0.tasks[k] == r.tasks[k]
    ensures key in r.tasks ==> res.0.cancelled == r.cancelled + {r.tasks[key]}
    ensures key !in r.tasks ==> res.0 == r
  {
    if key in r.tasks then (Registry(r.tasks - {key}, r.cancelled + {r.tasks[key]}), true)
    else (r, false)
  }

  /** `task_key in tasks and not tasks[task_key].done()`, with the finished
      tasks given as a set. */
  predicate InProgress(r: Registry, key: string, done: set<Handle>) {
    key in r.tasks && r.tasks[key] !in done
  }

  /** A task just registered is in progress until it finishes. */
  lemma RegisterStartsProgress(r: Registry, key: string, h: Handle, done: set<Handle>)
    requires h !in done
    ensures InProgress(Register(r, key, h), key, done)
    ensures !InProgress(Release(Register(r, key, h), key), key, done)
  {
  }

  /** Cancelling stops progress, and a second cancel reports nothing to do. */
  lemma CancelIsFinal(r: Registry, key: string, done: set<Handle>)
    ensures !InProgress(Cancel(r, key).0, key, done)
    ensures Cancel(Cancel(r, key).0, key).1 == false
  {
  }

  /** The superseded task's `finally` runs after its replacement was
      registered, and removes the replacement's entry: the key reads as idle
      while the newer task still runs. */
  lemma SupersededReleaseDropsNewer(r: Registry, key: string, older: Handle, newer: Handle, done: set<Handle>)
    requires newer !in done
    ensures var r2 := Register(Register(r, key, older), key, newer);
      && older in r2.cancelled
      && InProgress(r2, key, done)
      && !InProgress(Release(r2, key), key, done)
  {
  }

  /** The `finally` as evidently intended: delete the entry only if it is
      still this task's. */
  function ReleaseOwn(r: Registry, key: string, h: Handle): (r': Registry)
    ensures key in r.tasks && r.tasks[key] == h ==> key !in r'.tasks
    ensures key in r.tasks && r.tasks[key] != h ==> key in r'.tasks && r'.tasks[key] == r.tasks[key]
    ensures forall k :: k != key ==> (k in r'.tasks <==> k in r.tasks)
  {
    if key in r.tasks && r.tasks[key] == h then Registry(r.tasks - {key}, r.cancelled) else r
  }

  /** With the owner check, a superseded task's exit leaves its replacement
      registered, and a task's own exit still clears the key. */
  lemma ReleaseOwnKeepsNewer(r: Registry, key: string, older: Handle, newer: Handle, done: set<Handle>)
    requires older != newer && newer !in done
    ensures InProgress(ReleaseOwn(Register(Register(r, key, older), key, newer), key, older), key, done)
    ensures key !in ReleaseOwn(Register(r, key, newer), key, newer).tasks
  {
  }
}
