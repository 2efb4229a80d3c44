/** Which queued tasks are executable now: the fold over the trusted comments of the queue.

    A comment arrives parsed: the first lifecycle directive the code would find in it, with
    the task a `TASK` directive describes if it is machine-valid and READY. */
module TaskQueue {
  import opened Basics
  import opened Ordering

  datatype QueueTask = QueueTask(taskId: string, spec: string)

  datatype Directive =
    | Task(tid: string, candidate: Option<QueueTask>)
    | CancelTask(cid: string)
    | Terminal(did: string)
    | Silent

  datatype Comment = Comment(trusted: bool, directive: Directive)

  /** The task whose lifecycle a comment decides, if any. */
  function Decides(c: Comment): Option<string> {
    if !c.trusted then None
    else match c.directive
      case Task(id, _) => Some(id)
      case CancelTask(id) => Some(id)
      case Terminal(id) => Some(id)
      case Silent => None
  }

  predicate MakesReady(c: Comment) {
    c.trusted && c.directive.Task? && c.directive.candidate.Some?
  }

  /** A candidate is selected by the directive's own task id. */
  ghost predicate WellParsed(comments: seq<Comment>) {
    forall c :: c in comments && MakesReady(c) ==> c.directive.candidate.value.taskId == c.directive.tid
  }

  // ------------------------------------------------------------ what the queue should list

  /** Comment `k` made its task ready and no later comment decides that task. */
  ghost predicate Standing(comments: seq<Comment>, k: nat)
    requires k < |comments|
  {
    MakesReady(comments[k]) && forall j :: k < j < |comments| ==>
      Decides(comments[j]) != Some(comments[k].directive.tid)
  }

  /** The tasks made ready by standing comments among the first `n`, in comment order. */
  ghost function StandingTasks(comments: seq<Comment>, n: nat): seq<QueueTask>
    requires n <= |comments|
  {
    if n == 0 then []
    else StandingTasks(comments, n - 1)
         + if Standing(comments, n - 1) then [comments[n - 1].directive.candidate.value] else []
  }

  function Drop(tasks: seq<QueueTask>, id: string): seq<QueueTask> {
    if tasks == [] then []
    else Drop(tasks[..|tasks| - 1], id) + if tasks[|tasks| - 1].taskId == id then [] else [tasks[|tasks| - 1]]
  }

  lemma {:induction false} StandingDrop(comments: seq<Comment>, c: Comment, n: nat)
    requires WellParsed(comments) && n <= |comments|
    ensures StandingTasks(comments + [c], n) ==
            if Decides(c).None? then StandingTasks(comments, n) else Drop(StandingTasks(comments, n), Decides(c).value)
  {
    if n > 0 {
      StandingDrop(comments, c, n - 1);
      StandingExtended(comments, c, n - 1);
      var before := StandingTasks(comments, n - 1);
      if Standing(comments, n - 1) {
        var t := comments[n - 1].directive.candidate.value;
        assert comments[n - 1] in comments;
        assert (before + [t])[..|before|] == before;
      } else {
        assert before + [] == before;
      }
    }
  }

  lemma {:induction false} StandingExtended(comments: seq<Comment>, c: Comment, k: nat)
    requires k < |comments|
    ensures Standing(comments + [c], k) <==> Standing(comments, k) && Decides(c) != Some(comments[k].directive.tid)
  {
    var all := comments + [c];
    assert all[k] == comments[k] && all[|comments|] == c;
    assert forall j :: k < j < |comments| ==> all[j] == comments[j];
  }

  // ------------------------------------------------------------ the fold

  /** The active tasks in the order of `order`; entries that are no longer active are passed over. */
  function Listed(order: seq<string>, active: map<string, QueueTask>): seq<QueueTask> {
    if order == [] then []
    else Listed(order[..|order| - 1], active)
         + if order[|order| - 1] in active then [active[order[|order| - 1]]] else []
  }

  /** `list.remove`: the first occurrence goes. */
  function Remove(order: seq<string>, id: string): seq<string>
    requires id in order
  {
    if order[0] == id then order[1..] else [order[0]] + Remove(order[1..], id)
  }

  ghost predicate Keyed(active: map<string, QueueTask>) {
    forall id :: id in active ==> active[id].taskId == id
  }

  /** Popping an entry drops its task from the list. */
  lemma {:induction false} ListedPop(order: seq<string>, active: map<string, QueueTask>, id: string)
    requires Keyed(active)
    ensures Listed(order, active - {id}) == Drop(Listed(order, active), id)
  {
    if order != [] {
      var front, last := order[..|order| - 1], order[|order| - 1];
      ListedPop(front, active, id);
      if last in active {
        assert (Listed(front, active) + [active[last]])[..|Listed(front, active)|] == Listed(front, active);
      } else {
        assert Listed(front, active) + [] == Listed(front, active);
      }
    }
  }

  lemma {:induction false} ListedConcat(a: seq<string>, b: seq<string>, active: map<string, QueueTask>)
    ensures Listed(a + b, active) == Listed(a, active) + Listed(b, active)
  {
    if b == [] {
      assert a + b == a;
    } else {
      assert (a + b)[..|a + b| - 1] == a + b[..|b| - 1];
      ListedConcat(a, b[..|b| - 1], active);
    }
  }

  /** Removing an entry that is not active leaves the list. */
  lemma {:induction false} ListedRemove(order: seq<string>, active: map<string, QueueTask>, id: string)
    requires id in order && id !in active
    ensures Listed(Remove(order, id), active) == Listed(order, active)
  {
    assert order == [order[0]] + order[1..];
    ListedConcat([order[0]], order[1..], active);
    if order[0] == id {
      assert Listed([id], active) == [];
    } else {
      ListedRemove(order[1..], active, id);
      ListedConcat([order[0]], Remove(order[1..], id), active);
    }
  }

  lemma {:induction false} RemoveKeeps(order: seq<string>, id: string)
    requires id in order && NoDuplicates(order)
    ensures NoDuplicates(Remove(order, id)) && id !in Remove(order, id)
    ensures forall x :: x in Remove(order, id) <==> x in order && x != id
  {
    assert order == [order[0]] + order[1..];
    if order[0] != id {
      RemoveKeeps(order[1..], id);
      var rest := Remove(order[1..], id);
      assert order[0] !in order[1..];
      assert forall k :: 0 <= k < |rest| ==> rest[k] in rest;
    }
  }

  lemma {:induction false} ListedUnlisted(order: seq<string>, active: map<string, QueueTask>, id: string, t: QueueTask)
    requires id !in order
    ensures Listed(order, active[id := t]) == Listed(order, active - {id})
  {
    if order != [] {
      ListedUnlisted(order[..|order| - 1], active, id, t);
    }
  }

  lemma {:induction false} ListedAppend(order: seq<string>, active: map<string, QueueTask>, id: string, t: QueueTask)
    requires id !in order
    ensures Listed(order + [id], active[id := t]) == Listed(order, active - {id}) + [t]
  {
    ListedUnlisted(order, active, id, t);
    assert (order + [id])[..|order|] == order;
  }

  /** Removing a decided task, whether or not `order` knows it. */
  lemma {:induction false} ListedWithout(order: seq<string>, active: map<string, QueueTask>, id: string)
    requires NoDuplicates(order) && Keyed(active)
    ensures var left := if id in order then Remove(order, id) else order;
            && Listed(left, active - {id}) == Drop(Listed(order, active), id)
            && NoDuplicates(left) && id !in left
            && (forall x :: x in left <==> x in order && x != id)
  {
    hide Keyed, NoDuplicates;
    ListedPop(order, active, id);
    if id in order {
      ListedRemove(order, active - {id}, id);
      RemoveKeeps(order, id);
    }
  }

  /** The executable tasks are those made ready by a comment that still stands, in the order of those comments. */
  method ActiveReadyLocalTasks(comments: seq<Comment>) returns (tasks: seq<QueueTask>)
    requires WellParsed(comments)
    ensures tasks == StandingTasks(comments, |comments|)
  {
    hide Listed, Drop, Remove, NoDuplicates, Standing;
    var active: map<string, QueueTask> := map[];
    var order: seq<string> := [];
    AppendFresh([], "");
    var i := 0;
    while i < |comments|
      invariant i <= |comments| && NoDuplicates(order) && Keyed(active)
      invariant forall id :: id in active ==> id in order
      invariant Listed(order, active) == StandingTasks(comments[..i], i)
    {
      var c := comments[i];
      ghost var front, listed := comments[..i], Listed(order, active);
      assert comments[..i + 1] == front + [c];
      StepStanding(front, c);
      i := i + 1;
      if Decides(c).Some? { ListedWithout(order, active, Decides(c).value); }
      if !c.trusted { continue; }
      if c.directive.Task? {
        var id := c.directive.tid;
        if c.directive.candidate.None? {
          ListedPop(order, active, id);
          active := active - {id};
        } else {
          ghost var left := if id in order then Remove(order, id) else order;
          ListedAppend(left, active, id, c.directive.candidate.value);
          AppendFresh(left, id);
          active := active[id := c.directive.candidate.value];
          if id in order { order := Remove(order, id); }
          order := order + [id];
        }
        continue;
      }
      if c.directive.CancelTask? {
        active := active - {c.directive.cid};
        if c.directive.cid in order { order := Remove(order, c.directive.cid); }
        continue;
      }
      if c.directive.Terminal? {
        active := active - {c.directive.did};
        if c.directive.did in order { order := Remove(order, c.directive.did); }
      }
    }
    assert comments[..|comments|] == comments;
    tasks := Listed(order, active);
  }

  lemma {:induction false} AppendFresh(order: seq<string>, id: string)
    ensures NoDuplicates(order) && id !in order ==> NoDuplicates(order + [id])
    ensures Listed([], map[]) == [] && NoDuplicates<string>([])
  {
  }

  /** One comment more: its task is dropped, and listed last if the comment makes it ready. */
  lemma {:induction false} StepStanding(comments: seq<Comment>, c: Comment)
    requires WellParsed(comments + [c])
    ensures StandingTasks(comments + [c], |comments| + 1) ==
            (if Decides(c).None? then StandingTasks(comments, |comments|)
             else Drop(StandingTasks(comments, |comments|), Decides(c).value))
            + if MakesReady(c) then [c.directive.candidate.value] else []
  {
    hide Drop;
    var all := comments + [c];
    assert all[|comments|] == c;
    assert WellParsed(comments) by { assert forall x :: x in comments ==> x in all; }
    assert Standing(all, |comments|) <==> MakesReady(c);
    StandingDrop(comments, c, |comments|);
  }

  /** What one more comment does to the list: nothing if it is not trusted or says nothing; a READY task goes to the
      end and replaces its earlier version; any other TASK, a CANCEL and a DONE or BLOCKED take the task off. */
  lemma {:induction false} DirectiveEffect(comments: seq<Comment>, c: Comment, id: string, task: QueueTask)
    requires WellParsed(comments + [c])
    ensures var before, after := StandingTasks(comments, |comments|), StandingTasks(comments + [c], |comments| + 1);
            && (!c.trusted || c.directive == Silent ==> after == before)
            && (c.trusted && c.directive in {CancelTask(id), Terminal(id), Task(id, None)} ==>
                  after == Drop(before, id))
            && (c.trusted && c.directive == Task(id, Some(task)) ==> after == Drop(before, id) + [task])
  {
    StepStanding(comments, c);
    var before := StandingTasks(comments, |comments|);
    assert before + [] == before;
    assert c.trusted && c.directive != Silent ==> Decides(c).Some?;
    assert forall x :: Drop(before, x) + [] == Drop(before, x);
  }

  /** Taking a task off the list leaves exactly the others, in their order. */
  lemma {:induction false} DropIs(a: seq<QueueTask>, t: QueueTask, id: string)
    ensures Drop([], id) == []
    ensures Drop(a + [t], id) == if t.taskId == id then Drop(a, id) else Drop(a, id) + [t]
  {
    assert (a + [t])[..|a|] == a;
  }

  /** A task is listed exactly if its last deciding comment made it ready. */
  lemma {:induction false} ListedIff(comments: seq<Comment>, n: nat, t: QueueTask)
    requires n <= |comments|
    ensures t in StandingTasks(comments, n)
            <==> exists k :: 0 <= k < n && Standing(comments, k) && comments[k].directive.candidate.value == t
  {
    if n > 0 {
      ListedIff(comments, n - 1, t);
    }
  }

  /** No task is listed twice. */
  lemma {:induction false} ListedOnce(comments: seq<Comment>, n: nat)
    requires WellParsed(comments) && n <= |comments|
    ensures var ts := StandingTasks(comments, n); forall i, j :: 0 <= i < j < |ts| ==> ts[i].taskId != ts[j].taskId
  {
    if n > 0 {
      ListedOnce(comments, n - 1);
      var before := StandingTasks(comments, n - 1);
      if Standing(comments, n - 1) {
        forall i | 0 <= i < |before| ensures before[i].taskId != comments[n - 1].directive.candidate.value.taskId {
          ListedIff(comments, n - 1, before[i]);
          var k :| 0 <= k < n - 1 && Standing(comments, k) && comments[k].directive.candidate.value == before[i];
          StandingApart(comments, k, n - 1);
        }
      }
    }
  }

  lemma {:induction false} StandingApart(comments: seq<Comment>, k: nat, m: nat)
    requires WellParsed(comments) && k < m < |comments| && Standing(comments, k) && Standing(comments, m)
    ensures comments[k].directive.candidate.value.taskId != comments[m].directive.candidate.value.taskId
  {
    assert comments[k] in comments && comments[m] in comments;
    assert Decides(comments[m]) == Some(comments[m].directive.tid);
  }
}
