/**
 * `testRelevancy`: a question's relevancy is an AND of OR-blocks over the answers already
 * stored in the task; the result lists the blocks that fail.
 */
module Relevancy {
  import opened Common
  import opened Model
  import opened Lists

  /** `ann[prop]`, None being `undefined`. */
  function Lookup(ann: Annotations, prop: string): (r: Option<Value>)
    ensures r.Some? <==> prop in ann
  {
    if prop in ann then Some(ann[prop]) else None
  }

  /** `ann[orTest.prop] === orTest.value`; an absent value matches an absent answer. */
  predicate TestHolds(ann: Annotations, t: RelevancyTest) {
    Lookup(ann, t.prop) == t.value
  }

  /** `andTest.some(...)` */
  predicate BlockHolds(ann: Annotations, block: seq<RelevancyTest>) {
    exists j :: 0 <= j < |block| && TestHolds(ann, block[j])
  }

  /** A block the reducer pushes: non-empty and with no matching alternative. */
  predicate BlockFails(ann: Annotations, block: seq<RelevancyTest>) {
    |block| > 0 && !BlockHolds(ann, block)
  }

  /** The reducer over the blocks, left to right, pushing onto the accumulator. */
  function Reduce(blocks: Relevancy, ann: Annotations, acc: Relevancy): Relevancy {
    if |blocks| == 0 then acc
    else Reduce(blocks[1..], ann, if BlockFails(ann, blocks[0]) then acc + [blocks[0]] else acc)
  }

  /** Reference definition: the failing blocks in their original order. */
  function FailedBlocks(blocks: Relevancy, ann: Annotations): Relevancy {
    Filter(blocks, b => BlockFails(ann, b))
  }

  lemma {:induction false} ReduceIsFilter(blocks: Relevancy, ann: Annotations, acc: Relevancy)
    ensures Reduce(blocks, ann, acc) == acc + FailedBlocks(blocks, ann)
  {
    if |blocks| > 0 {
      var acc' := if BlockFails(ann, blocks[0]) then acc + [blocks[0]] else acc;
      ReduceIsFilter(blocks[1..], ann, acc');
    }
  }

  /**
   * Nothing fails when the question has no relevancy, an empty one, or the task has no
   * annotations; otherwise the result is exactly the failing blocks, in order.
   */
  function TestRelevancy(q: Question, task: Task): (r: Relevancy)
    ensures q.relevancy.None? || |q.relevancy.value| == 0 || task.annotations.None? ==> r == []
    ensures q.relevancy.Some? && task.annotations.Some? ==>
              r == FailedBlocks(q.relevancy.value, task.annotations.value)
  {
    if q.relevancy.Some? && |q.relevancy.value| > 0 && task.annotations.Some? then
      ReduceIsFilter(q.relevancy.value, task.annotations.value, []);
      Reduce(q.relevancy.value, task.annotations.value, [])
    else []
  }

  /** A block is returned exactly when it is one of the question's blocks, non-empty and unmatched. */
  lemma FailedMembers(q: Question, task: Task, b: seq<RelevancyTest>)
    requires q.relevancy.Some? && task.annotations.Some?
    ensures b in TestRelevancy(q, task) <==>
              b in q.relevancy.value && |b| > 0 && !BlockHolds(task.annotations.value, b)
  {
    FilterMembers(q.relevancy.value, b => BlockFails(task.annotations.value, b));
  }

  /** An empty block is never reported. */
  lemma NoEmptyBlockReported(q: Question, task: Task)
    ensures forall b :: b in TestRelevancy(q, task) ==> |b| > 0
  {
    if q.relevancy.Some? && task.annotations.Some? {
      FilterMembers(q.relevancy.value, b => BlockFails(task.annotations.value, b));
    }
  }

  /** The question applies exactly when every non-empty block has a matching alternative. */
  lemma RelevantIff(q: Question, task: Task)
    ensures TestRelevancy(q, task) == [] <==>
      q.relevancy.None? || task.annotations.None? ||
      forall i :: 0 <= i < |q.relevancy.value| ==>
        |q.relevancy.value[i]| == 0 || BlockHolds(task.annotations.value, q.relevancy.value[i])
  {
    if q.relevancy.Some? && task.annotations.Some? {
      var bs := q.relevancy.value;
      var ann := task.annotations.value;
      FilterMembers(bs, b => BlockFails(ann, b));
      if TestRelevancy(q, task) != [] {
        var b := TestRelevancy(q, task)[0];
        assert b in TestRelevancy(q, task);
        var i :| 0 <= i < |bs| && bs[i] == b;
      }
      if TestRelevancy(q, task) == [] {
        forall i | 0 <= i < |bs|
          ensures |bs[i]| == 0 || BlockHolds(ann, bs[i])
        {
          assert bs[i] in bs;
        }
      }
    }
  }

  /** Two AND-blocks, the second unmatched: only the second is returned. */
  lemma SecondBlockFails()
    ensures var yes := RelevancyTest("q1", Some(VStr("yes")));
            var no := RelevancyTest("q2", Some(VStr("no")));
            var q := Question("", "q3", [], Some([[yes], [no]]), None);
            var t := Task("1", "", [], Some(map["q1" := VStr("yes"), "q2" := VStr("yes")]));
            TestRelevancy(q, t) == [[no]]
  {
    var yes := RelevancyTest("q1", Some(VStr("yes")));
    var no := RelevancyTest("q2", Some(VStr("no")));
    var ann := map["q1" := VStr("yes"), "q2" := VStr("yes")];
    assert TestHolds(ann, [yes][0]);
    assert !TestHolds(ann, no);
    assert BlockHolds(ann, [yes]);
    assert !BlockHolds(ann, [no]);
  }

  /** A test without a value matches a task that has not answered that question. */
  lemma AbsentMatchesAbsent(prop: string, ann: Annotations)
    requires prop !in ann
    ensures BlockHolds(ann, [RelevancyTest(prop, None)])
  {
    assert TestHolds(ann, [RelevancyTest(prop, None)][0]);
  }
}
