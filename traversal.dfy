/**
 * The search behind `handleNext(index, qi)`: walk the filtered tasks for one question
 * after another, skipping the tasks that already hold an answer and those the question
 * is not relevant for, until a task must be answered or the last task of the last
 * question is reached.
 */
module Traversal {
  import opened Common
  import opened Model
  import opened Relevancy

  /** The task holds, under the question's `prop`, one of the question's answer values. */
  predicate Answered(t: Task, q: Question) {
    var ann := t.annotations.GetOr(map[]);
    q.prop in ann && exists k :: 0 <= k < |q.answers| && q.answers[k].value == Some(ann[q.prop])
  }

  predicate Relevant(t: Task, q: Question) {
    |TestRelevancy(q, t)| == 0
  }

  /** A pair the traversal would present to the user. */
  predicate Eligible(t: Task, q: Question) {
    !Answered(t, q) && Relevant(t, q)
  }

  /** Where a search ends. `Crash` is the TypeError of `questions[qi].answers` on a missing question. */
  datatype Stop = Settle(task: nat, question: nat) | Finish | Exhausted | Crash

  function Search(ft: seq<Task>, qs: seq<Question>, index: nat, qi: nat): Stop
    decreases |qs| - qi, |ft| - index
  {
    if index >= |ft| then
      if qi + 1 < |qs| then Search(ft, qs, 0, qi + 1) else Exhausted
    else if qi >= |qs| then Crash
    else if qi == |qs| - 1 && index == |ft| - 1 then Finish
    else if !Eligible(ft[index], qs[qi]) then Search(ft, qs, index + 1, qi)
    else Settle(index, qi)
  }

  /** The pair (k, q) comes before (i, p) in the order the search from (index, qi) visits pairs. */
  predicate VisitedBefore(index: nat, qi: nat, k: nat, q: nat, i: nat, p: nat) {
    ((q == qi && index <= k) || qi < q) && (q < p || (q == p && k < i))
  }

  /** The pair (k, q) is visited at all by the search from (index, qi). */
  predicate Visited(ft: seq<Task>, qs: seq<Question>, index: nat, qi: nat, k: nat, q: nat) {
    k < |ft| && q < |qs| && ((q == qi && index <= k) || qi < q)
  }

  predicate IsLastPair(ft: seq<Task>, qs: seq<Question>, k: nat, q: nat) {
    q == |qs| - 1 && k == |ft| - 1
  }

  /** A settled pair exists, must be answered, applies, and is never the last pair. */
  lemma {:induction false} SettleSound(ft: seq<Task>, qs: seq<Question>, index: nat, qi: nat)
    requires Search(ft, qs, index, qi).Settle?
    ensures var s := Search(ft, qs, index, qi);
      Visited(ft, qs, index, qi, s.task, s.question) &&
      Eligible(ft[s.task], qs[s.question]) && !IsLastPair(ft, qs, s.task, s.question)
    decreases |qs| - qi, |ft| - index
  {
    if index >= |ft| {
      SettleSound(ft, qs, 0, qi + 1);
    } else if !Eligible(ft[index], qs[qi]) {
      SettleSound(ft, qs, index + 1, qi);
    }
  }

  /** Every pair visited before the settled one was already answered or irrelevant. */
  lemma {:induction false} SettleFirst(ft: seq<Task>, qs: seq<Question>, index: nat, qi: nat)
    requires Search(ft, qs, index, qi).Settle?
    ensures var s := Search(ft, qs, index, qi);
      forall k: nat, q: nat :: k < |ft| && q < |qs| && VisitedBefore(index, qi, k, q, s.task, s.question) ==>
        !Eligible(ft[k], qs[q])
    decreases |qs| - qi, |ft| - index
  {
    var s := Search(ft, qs, index, qi);
    if index >= |ft| {
      SettleFirst(ft, qs, 0, qi + 1);
    } else if !Eligible(ft[index], qs[qi]) {
      SettleFirst(ft, qs, index + 1, qi);
    }
  }

  /** If some visited pair other than the last one must be answered, the search settles. */
  lemma {:induction false} SearchComplete(ft: seq<Task>, qs: seq<Question>, index: nat, qi: nat, k: nat, q: nat)
    requires Visited(ft, qs, index, qi, k, q) && !IsLastPair(ft, qs, k, q) && Eligible(ft[k], qs[q])
    ensures Search(ft, qs, index, qi).Settle?
    decreases |qs| - qi, |ft| - index
  {
    if index >= |ft| {
      SearchComplete(ft, qs, 0, qi + 1, k, q);
    } else if !Eligible(ft[index], qs[qi]) {
      if qi == |qs| - 1 && index == |ft| - 1 {
        assert false;
      } else {
        SearchComplete(ft, qs, index + 1, qi, k, q);
      }
    }
  }

  /** The search fails only on a question index that is out of range while there are tasks left. */
  lemma SearchCrashIff(ft: seq<Task>, qs: seq<Question>, index: nat, qi: nat)
    ensures Search(ft, qs, index, qi) == Crash <==> qi >= |qs| && index < |ft|
  {
    if qi < |qs| {
      NeverCrashes(ft, qs, index, qi);
    }
  }

  lemma {:induction false} NeverCrashes(ft: seq<Task>, qs: seq<Question>, index: nat, qi: nat)
    requires qi < |qs|
    ensures Search(ft, qs, index, qi) != Crash
    decreases |qs| - qi, |ft| - index
  {
    if index >= |ft| {
      if qi + 1 < |qs| {
        NeverCrashes(ft, qs, 0, qi + 1);
      }
    } else if !(qi == |qs| - 1 && index == |ft| - 1) && !Eligible(ft[index], qs[qi]) {
      NeverCrashes(ft, qs, index + 1, qi);
    }
  }

  /** Finishing means the last pair was reached and every visited pair before it was skipped. */
  lemma {:induction false} FinishReachesLast(ft: seq<Task>, qs: seq<Question>, index: nat, qi: nat)
    requires Search(ft, qs, index, qi) == Finish
    ensures |ft| > 0 && |qs| > 0 && Visited(ft, qs, index, qi, |ft| - 1, |qs| - 1)
    ensures forall k: nat, q: nat :: Visited(ft, qs, index, qi, k, q) && !IsLastPair(ft, qs, k, q) ==>
              !Eligible(ft[k], qs[q])
    decreases |qs| - qi, |ft| - index
  {
    if index >= |ft| {
      FinishReachesLast(ft, qs, 0, qi + 1);
    } else if !(qi == |qs| - 1 && index == |ft| - 1) {
      FinishReachesLast(ft, qs, index + 1, qi);
    }
    forall k: nat, q: nat | Visited(ft, qs, index, qi, k, q) && !IsLastPair(ft, qs, k, q)
      ensures !Eligible(ft[k], qs[q])
    {
      if Eligible(ft[k], qs[q]) {
        SearchComplete(ft, qs, index, qi, k, q);
      }
    }
  }

  /**
   * The search runs past the end of the task list at its starting question and moves
   * on: `handleNext(0, qi + 1)` is called, followed by `setQuestionIndex(qi + 1)`.
   */
  predicate Wraps(ft: seq<Task>, qs: seq<Question>, index: nat, qi: nat) {
    qi + 1 < |qs| && forall k :: index <= k < |ft| ==> !Eligible(ft[k], qs[qi])
  }

  /**
   * The question index the traversal leaves behind. The recursive call runs before
   * `setQuestionIndex(qi + 1)`, so after a wrap the outermost write, qi + 1, is the last one.
   */
  function WrittenQuestionIndex(ft: seq<Task>, qs: seq<Question>, index: nat, qi: nat, before: nat): nat {
    if Wraps(ft, qs, index, qi) then qi + 1
    else match Search(ft, qs, index, qi)
      case Settle(_, q) => q
      case _ => before
  }

  /** A search that settles on a later question has wrapped, so the question index written is qi + 1 only. */
  lemma {:induction false} LaterQuestionMeansWrap(ft: seq<Task>, qs: seq<Question>, index: nat, qi: nat)
    requires Search(ft, qs, index, qi).Settle? && Search(ft, qs, index, qi).question > qi
    ensures Wraps(ft, qs, index, qi)
    ensures WrittenQuestionIndex(ft, qs, index, qi, 0) == qi + 1
    decreases |ft| - index
  {
    if index < |ft| {
      LaterQuestionMeansWrap(ft, qs, index + 1, qi);
    }
  }

  /** Without a wrap the written question index is the settled one. */
  lemma NoWrapWritesSettledQuestion(ft: seq<Task>, qs: seq<Question>, index: nat, qi: nat, before: nat)
    requires Search(ft, qs, index, qi).Settle? && !Wraps(ft, qs, index, qi)
    ensures WrittenQuestionIndex(ft, qs, index, qi, before) == Search(ft, qs, index, qi).question
    ensures Search(ft, qs, index, qi).question == qi
  {
    if Search(ft, qs, index, qi).question > qi {
      LaterQuestionMeansWrap(ft, qs, index, qi);
    }
    SettleSound(ft, qs, index, qi);
  }

  /**
   * One task that answered the first two of four questions: the search settles on
   * question 2, but the question index left behind is 1.
   */
  lemma WrapTwiceExample()
    ensures var x := Some(VStr("x"));
            var t := Task("1", "", [], Some(map["a" := VStr("x"), "b" := VStr("x")]));
            var qs := [Question("", "a", [Answer("", x)], None, None),
                       Question("", "b", [Answer("", x)], None, None),
                       Question("", "c", [Answer("", x)], None, None),
                       Question("", "d", [Answer("", x)], None, None)];
            Search([t], qs, 0, 0) == Settle(0, 2) && WrittenQuestionIndex([t], qs, 0, 0, 0) == 1
  {
    var x := Some(VStr("x"));
    var t := Task("1", "", [], Some(map["a" := VStr("x"), "b" := VStr("x")]));
    var qs := [Question("", "a", [Answer("", x)], None, None),
               Question("", "b", [Answer("", x)], None, None),
               Question("", "c", [Answer("", x)], None, None),
               Question("", "d", [Answer("", x)], None, None)];
    assert qs[0].answers[0].value == Some(VStr("x"));
    assert Answered(t, qs[0]);
    assert qs[1].answers[0].value == Some(VStr("x"));
    assert Answered(t, qs[1]);
    assert !Answered(t, qs[2]);
    assert Relevant(t, qs[2]);
    assert Search([t], qs, 0, 2) == Settle(0, 2);
    assert Search([t], qs, 0, 1) == Search([t], qs, 1, 1) == Search([t], qs, 0, 2);
    assert Search([t], qs, 0, 0) == Search([t], qs, 1, 0) == Search([t], qs, 0, 1);
    assert Wraps([t], qs, 0, 0);
  }

  /** The navigation state the traversal writes: current task, current question, finish banner. */
  datatype Nav = Nav(task: nat, question: nat, finished: bool)

  /** The navigation state after `handleNext(index, qi)` over a snapshot of the lists. */
  function AfterNext(ft: seq<Task>, qs: seq<Question>, index: nat, qi: nat, n: Nav): Nav {
    var s := Search(ft, qs, index, qi);
    Nav(if s.Settle? then s.task else n.task,
        WrittenQuestionIndex(ft, qs, index, qi, n.question),
        if s == Finish then true else n.finished)
  }

  /** Skipping a pair that needs no answer does not change where the traversal ends. */
  lemma AfterNextSkip(ft: seq<Task>, qs: seq<Question>, index: nat, qi: nat, n: Nav)
    requires index < |ft| && qi < |qs| && !IsLastPair(ft, qs, index, qi) && !Eligible(ft[index], qs[qi])
    ensures AfterNext(ft, qs, index, qi, n) == AfterNext(ft, qs, index + 1, qi, n)
  {
    assert Wraps(ft, qs, index, qi) <==> Wraps(ft, qs, index + 1, qi);
  }

  /** Running off the end of the tasks moves to the next question, whose index is written last. */
  lemma AfterNextWrap(ft: seq<Task>, qs: seq<Question>, index: nat, qi: nat, n: Nav)
    requires index >= |ft| && qi + 1 < |qs|
    ensures AfterNext(ft, qs, index, qi, n) == AfterNext(ft, qs, 0, qi + 1, n).(question := qi + 1)
  {
  }

  /** Past the end of the tasks at the last question, the traversal changes nothing. */
  lemma AfterNextPastEnd(ft: seq<Task>, qs: seq<Question>, index: nat, qi: nat, n: Nav)
    requires index >= |ft| && qi + 1 >= |qs|
    ensures AfterNext(ft, qs, index, qi, n) == n
    ensures Search(ft, qs, index, qi) == Exhausted
  {
  }

  /**
   * Reaching the last task of the last question raises the finish banner and leaves the
   * current task; the question index moves only when the search wrapped on its way there.
   */
  lemma AfterNextFinish(ft: seq<Task>, qs: seq<Question>, index: nat, qi: nat, n: Nav)
    requires Search(ft, qs, index, qi) == Finish
    ensures AfterNext(ft, qs, index, qi, n) ==
      n.(finished := true, question := if Wraps(ft, qs, index, qi) then qi + 1 else n.question)
  {
  }

  // ----- selectNextAvailableTask -----

  /** `tasks.findIndex(t => !t.annotations)` */
  function FindUnannotated(tasks: seq<Task>): (r: int)
    ensures -1 <= r < |tasks|
    ensures r >= 0 ==> tasks[r].annotations.None? && forall k :: 0 <= k < r ==> tasks[k].annotations.Some?
    ensures r == -1 ==> forall k :: 0 <= k < |tasks| ==> tasks[k].annotations.Some?
  {
    if |tasks| == 0 then -1
    else if tasks[0].annotations.None? then 0
    else var k := FindUnannotated(tasks[1..]); if k < 0 then -1 else k + 1
  }

  /** `findIndex(..) || -1`, then `i >= 0 ? i : 0`; no list means 0. */
  function NextAvailableIndex(tasks: Option<seq<Task>>): nat {
    match tasks
    case None => 0
    case Some(ts) =>
      var found := FindUnannotated(ts);
      var i := if found != 0 then found else -1;   // 0 is falsy
      if i >= 0 then i else 0
  }

  /** Despite `|| -1`, the task chosen is the first one without annotations, or 0 when there is none. */
  lemma NextAvailableIsFirstUnannotated(ts: seq<Task>)
    ensures var r := NextAvailableIndex(Some(ts));
      (exists k :: 0 <= k < |ts| && ts[k].annotations.None?) ==>
        r < |ts| && ts[r].annotations.None? && forall k :: 0 <= k < r ==> ts[k].annotations.Some?
    ensures (forall k :: 0 <= k < |ts| ==> ts[k].annotations.Some?) ==> NextAvailableIndex(Some(ts)) == 0
  {
  }
}
