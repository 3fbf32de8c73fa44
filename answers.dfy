/**
 * Edits of stored answers: the answer toggle of a question, the bulk application of a
 * draft to a selection of tasks, and the removal of one question's answers from every task.
 */
module Answers {
  import opened Common
  import opened Model
  import opened Lists

  /**
   * Choosing answer `v` for `prop`: the key is removed when it already holds `v`
   * (a second click on the same answer clears it), and set to `v` otherwise.
   */
  function Toggle(ann: Annotations, prop: string, v: Value): (r: Annotations)
    ensures prop in r <==> !(prop in ann && ann[prop] == v)
    ensures prop in r ==> r[prop] == v
    ensures forall k :: k != prop ==> (k in r <==> k in ann)
    ensures forall k :: k != prop && k in r ==> r[k] == ann[k]
  {
    if prop in ann && ann[prop] == v then ann - {prop} else ann[prop := v]
  }

  /** Choosing the same answer twice restores the map, unless another answer was stored before. */
  lemma ToggleTwice(ann: Annotations, prop: string, v: Value)
    ensures prop !in ann || ann[prop] == v ==> Toggle(Toggle(ann, prop, v), prop, v) == ann
    ensures prop in ann && ann[prop] != v ==> Toggle(Toggle(ann, prop, v), prop, v) == ann - {prop}
  {
  }

  /** `{ ...old, ...draft }`: the draft's keys win, every other key is kept. */
  function Merge(old_: Annotations, draft: Annotations): (r: Annotations)
    ensures r.Keys == old_.Keys + draft.Keys
    ensures forall k :: k in draft ==> r[k] == draft[k]
    ensures forall k :: k in old_ && k !in draft ==> r[k] == old_[k]
  {
    old_ + draft
  }

  /** What `applyBulkAnswers` does to one task. */
  function BulkTask(t: Task, ids: seq<string>, draft: Annotations): Task {
    if t.id !in ids then t
    else if |draft| > 0 then t.(annotations := Some(Merge(t.annotations.GetOr(map[]), draft)))
    else t.(annotations := None)
  }

  /** `tasks.map(..)` of `applyBulkAnswers`, over the ids of `tasksToBulkApply`. */
  function ApplyBulk(tasks: seq<Task>, ids: seq<string>, draft: Annotations): (r: seq<Task>)
    ensures |r| == |tasks|
    ensures forall i :: 0 <= i < |tasks| && tasks[i].id !in ids ==> r[i] == tasks[i]
    ensures forall i :: 0 <= i < |tasks| ==>
      r[i].id == tasks[i].id && r[i].title == tasks[i].title && r[i].sentences == tasks[i].sentences
  {
    seq(|tasks|, i requires 0 <= i < |tasks| => BulkTask(tasks[i], ids, draft))
  }

  /**
   * On a selected task a non-empty draft is laid over the stored answers (an absent
   * map counts as empty), and an empty draft removes the answers altogether.
   */
  lemma ApplyBulkSelected(tasks: seq<Task>, ids: seq<string>, draft: Annotations, i: nat)
    requires i < |tasks| && tasks[i].id in ids
    ensures var t := ApplyBulk(tasks, ids, draft)[i];
      (|draft| == 0 ==> t.annotations.None?) &&
      (|draft| > 0 ==>
        (t.annotations.Some? &&
         (forall k :: k in draft ==> k in t.annotations.value && t.annotations.value[k] == draft[k]) &&
         (forall k :: tasks[i].annotations.Some? && k in tasks[i].annotations.value && k !in draft ==>
            k in t.annotations.value && t.annotations.value[k] == tasks[i].annotations.value[k]) &&
         (forall k :: k in t.annotations.value ==>
            k in draft || (tasks[i].annotations.Some? && k in tasks[i].annotations.value))))
  {
  }

  /** Applying the same draft twice changes nothing more. */
  lemma ApplyBulkIdempotent(tasks: seq<Task>, ids: seq<string>, draft: Annotations)
    ensures ApplyBulk(ApplyBulk(tasks, ids, draft), ids, draft) == ApplyBulk(tasks, ids, draft)
  {
    var once := ApplyBulk(tasks, ids, draft);
    var twice := ApplyBulk(once, ids, draft);
    forall i | 0 <= i < |tasks|
      ensures twice[i] == once[i]
    {
      if tasks[i].id in ids && |draft| > 0 {
        var m := tasks[i].annotations.GetOr(map[]);
        assert Merge(Merge(m, draft), draft) == Merge(m, draft);
      }
    }
  }

  /** The "deleteAnswers" action on one task: drop `prop`, then drop a map left empty. */
  function DeleteAnswer(t: Task, prop: string): Task {
    match t.annotations
    case None => t
    case Some(m) =>
      var m' := m - {prop};
      if |m'| == 0 then t.(annotations := None) else t.(annotations := Some(m'))
  }

  function DeleteAnswers(tasks: seq<Task>, prop: string): (r: seq<Task>)
    ensures |r| == |tasks|
    ensures forall i :: 0 <= i < |tasks| ==>
      r[i].id == tasks[i].id && r[i].title == tasks[i].title && r[i].sentences == tasks[i].sentences
  {
    seq(|tasks|, i requires 0 <= i < |tasks| => DeleteAnswer(tasks[i], prop))
  }

  /**
   * After "deleteAnswers" no task answers `prop`, no task keeps an empty map, a map that
   * stays is the old one without `prop` (nothing is added, a task without answers keeps
   * none), and every other answer is where it was.
   */
  lemma DeleteAnswersSpec(tasks: seq<Task>, prop: string)
    ensures var r := DeleteAnswers(tasks, prop);
      forall i :: 0 <= i < |r| ==>
        (r[i].annotations.Some? ==> prop !in r[i].annotations.value && |r[i].annotations.value| > 0) &&
        (r[i].annotations.Some? ==>
           tasks[i].annotations.Some? && r[i].annotations.value == tasks[i].annotations.value - {prop}) &&
        (r[i].annotations.None? ==> tasks[i].annotations.None? || tasks[i].annotations.value.Keys <= {prop}) &&
        (forall k :: k != prop && tasks[i].annotations.Some? && k in tasks[i].annotations.value ==>
           r[i].annotations.Some? && k in r[i].annotations.value &&
           r[i].annotations.value[k] == tasks[i].annotations.value[k])
  {
    var r := DeleteAnswers(tasks, prop);
    forall i | 0 <= i < |r|
      ensures r[i].annotations.None? ==> tasks[i].annotations.None? || tasks[i].annotations.value.Keys <= {prop}
      ensures forall k :: k != prop && tasks[i].annotations.Some? && k in tasks[i].annotations.value ==>
           r[i].annotations.Some? && k in r[i].annotations.value
    {
      if tasks[i].annotations.Some? {
        var m := tasks[i].annotations.value;
        forall k | k != prop && k in m
          ensures r[i].annotations.Some? && k in r[i].annotations.value
        {
          assert k in m - {prop};
        }
      }
    }
  }

  /** Deleting the answers of one question twice is the same as once. */
  lemma DeleteAnswersIdempotent(tasks: seq<Task>, prop: string)
    ensures DeleteAnswers(DeleteAnswers(tasks, prop), prop) == DeleteAnswers(tasks, prop)
  {
    var once := DeleteAnswers(tasks, prop);
    forall i | 0 <= i < |tasks|
      ensures DeleteAnswer(once[i], prop) == once[i]
    {
      if once[i].annotations.Some? {
        var m := once[i].annotations.value;
        assert prop !in m by { DeleteAnswersSpec(tasks, prop); }
        assert m - {prop} == m;
      }
    }
  }

  /** `tasks.map(t => t.id)` */
  function TaskIds(tasks: seq<Task>): (r: seq<string>)
    ensures |r| == |tasks| && forall k :: 0 <= k < |tasks| ==> r[k] == tasks[k].id
  {
    seq(|tasks|, k requires 0 <= k < |tasks| => tasks[k].id)
  }

  /** `tasks.findIndex(t => t.id === id)` */
  function FindTask(tasks: seq<Task>, id: string): (r: int)
    ensures -1 <= r < |tasks|
    ensures r >= 0 ==> tasks[r].id == id && forall k :: 0 <= k < r ==> tasks[k].id != id
    ensures r == -1 ==> forall k :: 0 <= k < |tasks| ==> tasks[k].id != id
  {
    IndexOf(TaskIds(tasks), id)
  }
}
