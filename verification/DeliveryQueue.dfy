/** Queueing deliveries when a task completes: one attempt per delivery item that names a target of the task's owner. */
module DeliveryQueue {
  import opened Wrappers
  import opened Delivery

  /** One entry of a task's delivery option; an absent variant is the empty string. */
  datatype Item = NotARecord | NoReference | NotAnId | Reference(target: nat, variant: string)

  datatype Target = Target(owner: nat, adapter: string, defaultVariant: Option<string>)

  datatype Task = Task(id: nat, owner: nat)

  predicate Resolves(item: Item, task: Task, targets: map<nat, Target>) {
    item.Reference? && item.target in targets && targets[item.target].owner == task.owner
  }

  function RowFor(item: Item, task: Task, targets: map<nat, Target>, maxAttempts: int, now: int): Row
    requires Resolves(item, task, targets)
  {
    var target := targets[item.target];
    var variant := if item.variant != "" then item.variant else target.defaultVariant.GetOr("summary");
    FreshRow(task.id, Some(item.target), target.adapter, variant, maxAttempts, now)
  }

  /** The creations for the first items; item `i` takes the id `ids[i]`. */
  function Creations(items: seq<Item>, ids: seq<Id>, task: Task, targets: map<nat, Target>, maxAttempts: int,
                     now: int): seq<Event>
    requires |items| <= |ids|
  {
    if items == [] then []
    else
      var n := |items| - 1;
      Creations(items[..n], ids, task, targets, maxAttempts, now)
      + (if Resolves(items[n], task, targets) then [Create(ids[n], RowFor(items[n], task, targets, maxAttempts, now))] else [])
  }

  ghost predicate FreshIds(ids: seq<Id>, rows: map<Id, Row>) {
    && (forall i :: 0 <= i < |ids| ==> ids[i] !in rows)
    && (forall i, j :: 0 <= i < j < |ids| ==> ids[i] != ids[j])
  }

  /** The item names a target that belongs to the owner of the task. */
  ghost predicate NamesOwnTarget(item: Item, task: Task, targets: map<nat, Target>) {
    exists t :: t in targets && targets[t].owner == task.owner && item.Reference? && item.target == t
  }

  /** The row delivers this task to the item's target in the item's variant, else the target's, else the summary. */
  ghost predicate Delivers(row: Row, item: Item, task: Task, targets: map<nat, Target>, maxAttempts: int, now: int)
    requires NamesOwnTarget(item, task, targets)
  {
    && row.taskId == task.id && row.targetId == Some(item.target) && row.adapter == targets[item.target].adapter
    && (item.variant != "" ==> row.variant == item.variant)
    && (item.variant == "" && targets[item.target].defaultVariant.Some? ==>
          row.variant == targets[item.target].defaultVariant.value)
    && (item.variant == "" && targets[item.target].defaultVariant.None? ==> row.variant == "summary")
    && row.status == Pending && row.attempts == 0 && row.maxAttempts == maxAttempts && row.nextAttemptAt == Some(now)
    && row.lastError == None && row.externalId == None && row.externalUrl == None && row.updatedAt == now
  }

  lemma ResolvesMeans(item: Item, task: Task, targets: map<nat, Target>, maxAttempts: int, now: int)
    ensures Resolves(item, task, targets) <==> NamesOwnTarget(item, task, targets)
    ensures Resolves(item, task, targets) ==>
              Delivers(RowFor(item, task, targets, maxAttempts, now), item, task, targets, maxAttempts, now)
  {
  }

  /** The table afterwards: the old rows as they were, and one new row for each item that names an own target. */
  ghost predicate Enqueued(before: map<Id, Row>, after: map<Id, Row>, items: seq<Item>, ids: seq<Id>, task: Task,
                           targets: map<nat, Target>, maxAttempts: int, now: int)
    requires |items| <= |ids|
  {
    && (forall id :: id in before ==> id in after && after[id] == before[id])
    && (forall i :: 0 <= i < |items| ==> (ids[i] in after <==> NamesOwnTarget(items[i], task, targets)))
    && (forall i :: 0 <= i < |items| && NamesOwnTarget(items[i], task, targets) ==>
          ids[i] in after && Delivers(after[ids[i]], items[i], task, targets, maxAttempts, now))
    && (forall id :: id in after ==> id in before || exists i :: 0 <= i < |items| && ids[i] == id)
  }

  lemma EnqueueOne(before: map<Id, Row>, after: map<Id, Row>, items: seq<Item>, ids: seq<Id>, task: Task,
                   targets: map<nat, Target>, maxAttempts: int, now: int, n: nat)
    requires n < |items| <= |ids| && FreshIds(ids, before)
    requires Enqueued(before, after, items[..n], ids, task, targets, maxAttempts, now)
    ensures ids[n] !in after
    ensures var next := if Resolves(items[n], task, targets)
                        then after[ids[n] := RowFor(items[n], task, targets, maxAttempts, now)] else after;
            Enqueued(before, next, items[..n + 1], ids, task, targets, maxAttempts, now)
  {
    ResolvesMeans(items[n], task, targets, maxAttempts, now);
    hide Resolves, RowFor, NamesOwnTarget, Delivers;
    var more := items[..n + 1];
    assert forall i :: 0 <= i < n ==> items[..n][i] == more[i];
  }

  /** Rows are created for exactly the items that resolve, due at once; the count is their number. */
  method EnqueueDeliveries(repo: DeliveryRepo, task: Task, spec: Option<seq<Item>>, targets: map<nat, Target>, maxAttempts: int,
                           now: int, ids: seq<Id>, ghost settings: Settings) returns (count: nat, ghost events: seq<Event>)
    requires Inv(repo.Abs()) && FreshIds(ids, repo.rows) && |spec.GetOr([])| <= |ids|
    modifies repo
    ensures Inv(repo.Abs()) && Possible(old(repo.Abs()), events, settings) && repo.Abs() == Run(old(repo.Abs()), events, settings)
    ensures events == Creations(spec.GetOr([]), ids, task, targets, maxAttempts, now) && count == |events|
    ensures Enqueued(old(repo.rows), repo.rows, spec.GetOr([]), ids, task, targets, maxAttempts, now)
  {
    hide Inv, Possible, Run, RowFor, Step, Enqueued;
    RunNone(repo.Abs(), settings);
    events := [];
    count := 0;
    var items := spec.GetOr([]);
    NothingEnqueued(repo.rows, items, ids, task, targets, maxAttempts, now);
    for i := 0 to |items|
      invariant Inv(repo.Abs()) && Possible(old(repo.Abs()), events, settings)
          && repo.Abs() == Run(old(repo.Abs()), events, settings)
      invariant events == Creations(items[..i], ids, task, targets, maxAttempts, now) && count == |events|
      invariant Enqueued(old(repo.rows), repo.rows, items[..i], ids, task, targets, maxAttempts, now)
    {
      assert items[..i + 1][..i] == items[..i];
      EnqueueOne(old(repo.rows), repo.rows, items, ids, task, targets, maxAttempts, now, i);
      if Resolves(items[i], task, targets) {
        var target := targets[items[i].target];
        var variant := if items[i].variant != "" then items[i].variant else target.defaultVariant.GetOr("summary");
        ghost var row := RowFor(items[i], task, targets, maxAttempts, now);
        RowIs(items[i], task, targets, maxAttempts, now);
        RunSnoc(old(repo.Abs()), events, Create(ids[i], row), settings);
        CreateAdds(repo.Abs(), ids[i], row, settings);
        repo.CreateDeliveryAttempt(ids[i], task.id, Some(items[i].target), target.adapter, variant, maxAttempts, now, settings);
        events := events + [Create(ids[i], row)];
        count := count + 1;
      }
    }
    assert items[..|items|] == items;
  }

  lemma NothingEnqueued(rows: map<Id, Row>, items: seq<Item>, ids: seq<Id>, task: Task, targets: map<nat, Target>,
                        maxAttempts: int, now: int)
    requires |items| <= |ids|
    ensures Enqueued(rows, rows, items[..0], ids, task, targets, maxAttempts, now)
  {
  }

  lemma RowIs(item: Item, task: Task, targets: map<nat, Target>, maxAttempts: int, now: int)
    requires Resolves(item, task, targets)
    ensures var target := targets[item.target];
            RowFor(item, task, targets, maxAttempts, now)
            == FreshRow(task.id, Some(item.target), target.adapter,
                        if item.variant != "" then item.variant else target.defaultVariant.GetOr("summary"), maxAttempts, now)
  {
  }

  lemma CreateAdds(s: State, id: Id, row: Row, settings: Settings)
    requires id !in s.rows
    ensures Step(s, Create(id, row), settings).rows == s.rows[id := row]
  {
  }
}
