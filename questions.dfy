/**
 * Edits of the question list: saving a question from the editor form (an upsert by
 * `prop`), the relevancy-criteria editors of the form, and the topic matrix that
 * chooses, per question, the topics it is relevant for.
 */
module Questions {
  import opened Common
  import opened Model
  import opened Lists

  // ----- the question list (QuestionsBloc) -----

  /** `questions.map(q => q.prop)` */
  function Props(qs: seq<Question>): (r: seq<string>)
    ensures |r| == |qs| && forall k :: 0 <= k < |qs| ==> r[k] == qs[k].prop
  {
    seq(|qs|, k requires 0 <= k < |qs| => qs[k].prop)
  }

  /** `questions.findIndex(q => q.prop === prop)` */
  function FindQuestion(qs: seq<Question>, prop: string): (r: int)
    ensures -1 <= r < |qs|
    ensures r >= 0 ==> qs[r].prop == prop && forall k :: 0 <= k < r ==> qs[k].prop != prop
    ensures r == -1 ==> forall k :: 0 <= k < |qs| ==> qs[k].prop != prop
  {
    IndexOf(Props(qs), prop)
  }

  /** `handleSave`: replace the first question with the same `prop`, or append the new one. */
  function Upsert(qs: seq<Question>, q: Question): (r: seq<Question>)
    ensures FindQuestion(qs, q.prop) >= 0 ==>
      |r| == |qs| && r[FindQuestion(qs, q.prop)] == q &&
      forall k :: 0 <= k < |qs| && k != FindQuestion(qs, q.prop) ==> r[k] == qs[k]
    ensures FindQuestion(qs, q.prop) < 0 ==> r == qs + [q]
  {
    var i := FindQuestion(qs, q.prop);
    if i >= 0 then
      SpliceReplace(qs, i, q);
      Splice(qs, i, 1, [q])
    else qs + [q]
  }

  /** No two questions store their answers under the same key. */
  predicate UniqueProps(qs: seq<Question>) {
    forall i, j :: 0 <= i < j < |qs| ==> qs[i].prop != qs[j].prop
  }

  /** Saving keeps the keys unique, and afterwards the saved question is the one with its key. */
  lemma UpsertUnique(qs: seq<Question>, q: Question)
    requires UniqueProps(qs)
    ensures UniqueProps(Upsert(qs, q))
    ensures FindQuestion(Upsert(qs, q), q.prop) >= 0
    ensures Upsert(qs, q)[FindQuestion(Upsert(qs, q), q.prop)] == q
  {
    var r := Upsert(qs, q);
    var i := FindQuestion(qs, q.prop);
    if i < 0 {
      assert r[|qs|] == q;
    }
  }

  /** Saving the same question twice is the same as once. */
  lemma UpsertIdempotent(qs: seq<Question>, q: Question)
    ensures Upsert(Upsert(qs, q), q) == Upsert(qs, q)
  {
    var r := Upsert(qs, q);
    var i := FindQuestion(qs, q.prop);
    if i < 0 {
      assert r[|qs|] == q;
      assert FindQuestion(r, q.prop) == |qs|;
    } else {
      assert FindQuestion(r, q.prop) == i;
    }
  }

  // ----- relevancy criteria (QuestionForm) -----

  /** The test `{ prop: "" }` a new criterion starts with. */
  const BlankTest := RelevancyTest("", None)

  /** Criteria the form builds up never hold an empty block. */
  predicate NoEmptyBlocks(rel: Relevancy) {
    forall i :: 0 <= i < |rel| ==> |rel[i]| > 0
  }

  /** `addCriteria(i, j)`: a blank test right after test j of block i. */
  function InsertBlankTest(rel: Relevancy, i: nat, j: nat): (r: Relevancy)
    requires i < |rel| && j < |rel[i]|
    ensures |r| == |rel| && r[i] == rel[i][..j + 1] + [BlankTest] + rel[i][j + 1..]
    ensures forall k :: 0 <= k < |rel| && k != i ==> r[k] == rel[k]
  {
    SpliceInsert(rel[i], j + 1, BlankTest);
    var block := Splice(rel[i], j + 1, 0, [BlankTest]);
    SpliceReplace(rel, i, block);
    Splice(rel, i, 1, [block])
  }

  /** `addCriteriaBlock`: a new block holding one blank test, at the end. */
  function AppendBlankBlock(rel: Relevancy): (r: Relevancy)
    ensures |r| == |rel| + 1 && r[..|rel|] == rel && r[|rel|] == [BlankTest]
  {
    rel + [[BlankTest]]
  }

  /** `deleteCriteria(i, j)`: remove test j of block i, and the block with it when it is left empty. */
  function RemoveTest(rel: Relevancy, i: nat, j: nat): (r: Relevancy)
    requires i < |rel| && j < |rel[i]|
    ensures |rel[i]| == 1 ==> r == RemoveAt(rel, i)
    ensures |rel[i]| > 1 ==>
      (|r| == |rel| && r[i] == RemoveAt(rel[i], j) &&
       forall k :: 0 <= k < |rel| && k != i ==> r[k] == rel[k])
  {
    var block := Splice(rel[i], j, 1, []);
    SpliceRemove(rel[i], j);
    if |block| == 0 then
      SpliceRemove(rel, i);
      Splice(rel, i, 1, [])
    else
      SpliceReplace(rel, i, block);
      Splice(rel, i, 1, [block])
  }

  /** `deleteCriteriaBlock(i)`: remove block i; no block left means no relevancy at all. */
  function RemoveBlock(rel: Relevancy, i: nat): (r: Option<Relevancy>)
    requires i < |rel|
    ensures |rel| == 1 ==> r == None
    ensures |rel| > 1 ==> r == Some(RemoveAt(rel, i))
  {
    SpliceRemove(rel, i);
    var rest := Splice(rel, i, 1, []);
    if |rest| == 0 then None else Some(rest)
  }

  /** `setCriteriaQuestion` / `setCriteriaAnswer`: one test of one block rewritten. */
  function ReplaceTest(rel: Relevancy, i: nat, j: nat, t: RelevancyTest): (r: Relevancy)
    requires i < |rel| && j < |rel[i]|
    ensures |r| == |rel| && |r[i]| == |rel[i]| && r[i][j] == t
    ensures forall k :: 0 <= k < |rel[i]| && k != j ==> r[i][k] == rel[i][k]
    ensures forall k :: 0 <= k < |rel| && k != i ==> r[k] == rel[k]
  {
    SpliceReplace(rel[i], j, t);
    var block := Splice(rel[i], j, 1, [t]);
    SpliceReplace(rel, i, block);
    Splice(rel, i, 1, [block])
  }

  /** Every criteria edit keeps the criteria free of empty blocks. */
  lemma CriteriaKeepBlocksNonEmpty(rel: Relevancy, i: nat, j: nat, t: RelevancyTest)
    requires NoEmptyBlocks(rel)
    ensures NoEmptyBlocks(AppendBlankBlock(rel))
    ensures i < |rel| && j < |rel[i]| ==>
      NoEmptyBlocks(InsertBlankTest(rel, i, j)) && NoEmptyBlocks(RemoveTest(rel, i, j)) &&
      NoEmptyBlocks(ReplaceTest(rel, i, j, t)) &&
      (RemoveBlock(rel, i).Some? ==> NoEmptyBlocks(RemoveBlock(rel, i).value))
  {
    if i < |rel| && j < |rel[i]| {
      var d := RemoveTest(rel, i, j);
      forall k | 0 <= k < |d| ensures |d[k]| > 0 {
        if |rel[i]| == 1 {
          if k < i { assert d[k] == rel[k]; } else { assert d[k] == rel[k + 1]; }
        }
      }
      if |rel| > 1 {
        var b := RemoveAt(rel, i);
        forall k | 0 <= k < |b| ensures |b[k]| > 0 {
          if k < i { assert b[k] == rel[k]; } else { assert b[k] == rel[k + 1]; }
        }
      }
    }
  }

  /** Deleting the test just added gives the criteria back. */
  lemma DeleteUndoesAdd(rel: Relevancy, i: nat, j: nat)
    requires i < |rel| && j < |rel[i]|
    ensures RemoveTest(InsertBlankTest(rel, i, j), i, j + 1) == rel
  {
    var a := InsertBlankTest(rel, i, j);
    assert RemoveAt(a[i], j + 1) == rel[i] by {
      assert a[i][..j + 1] == rel[i][..j + 1];
      assert a[i][j + 2..] == rel[i][j + 1..];
    }
  }

  /** Deleting the block just added gives the criteria back, or no criteria when there were none. */
  lemma DeleteBlockUndoesAddBlock(rel: Relevancy)
    ensures RemoveBlock(AppendBlankBlock(rel), |rel|) == if |rel| == 0 then None else Some(rel)
  {
    assert RemoveAt(AppendBlankBlock(rel), |rel|) == rel;
  }

  /** The question form, whose values each criteria editor replaces. */
  class QuestionForm {
    var values: Question

    constructor (q: Question)
      ensures values == q
    {
      values := q;
    }

    /** `q.values.relevancy || []`, copied. */
    function Criteria(): Relevancy
      reads this
    {
      values.relevancy.GetOr([])
    }

    method AddCriteria(i: nat, j: nat)
      requires i < |Criteria()| && j < |Criteria()[i]|
      modifies this
      ensures values == old(values).(relevancy := Some(InsertBlankTest(old(Criteria()), i, j)))
    {
      var relevancy := Criteria();
      var block := relevancy[i];
      block := Splice(block, j + 1, 0, [BlankTest]);
      relevancy := Splice(relevancy, i, 1, [block]);
      values := values.(relevancy := Some(relevancy));
    }

    method AddCriteriaBlock()
      modifies this
      ensures values == old(values).(relevancy := Some(AppendBlankBlock(old(Criteria()))))
    {
      var relevancy := Criteria();
      relevancy := relevancy + [[BlankTest]];
      values := values.(relevancy := Some(relevancy));
    }

    /** The criteria stay present, possibly as an empty list, after the last test is deleted. */
    method DeleteCriteria(i: nat, j: nat)
      requires i < |Criteria()| && j < |Criteria()[i]|
      modifies this
      ensures values == old(values).(relevancy := Some(RemoveTest(old(Criteria()), i, j)))
    {
      var relevancy := Criteria();
      var block := relevancy[i];
      block := Splice(block, j, 1, []);
      if |block| == 0 {
        relevancy := Splice(relevancy, i, 1, []);
      } else {
        relevancy := Splice(relevancy, i, 1, [block]);
      }
      values := values.(relevancy := Some(relevancy));
    }

    method DeleteCriteriaBlock(i: nat)
      requires i < |Criteria()|
      modifies this
      ensures values == old(values).(relevancy := RemoveBlock(old(Criteria()), i))
    {
      var relevancy := Criteria();
      relevancy := Splice(relevancy, i, 1, []);
      if |relevancy| == 0 {
        values := values.(relevancy := None);
      } else {
        values := values.(relevancy := Some(relevancy));
      }
    }

    method SetCriteriaQuestion(i: nat, j: nat, v: string)
      requires i < |Criteria()| && j < |Criteria()[i]|
      modifies this
      ensures values == old(values).(relevancy :=
        Some(ReplaceTest(old(Criteria()), i, j, old(Criteria())[i][j].(prop := v))))
    {
      var relevancy := Criteria();
      var block := relevancy[i];
      block := Splice(block, j, 1, [block[j].(prop := v)]);
      relevancy := Splice(relevancy, i, 1, [block]);
      values := values.(relevancy := Some(relevancy));
    }

    method SetCriteriaAnswer(i: nat, j: nat, v: Value)
      requires i < |Criteria()| && j < |Criteria()[i]|
      modifies this
      ensures values == old(values).(relevancy :=
        Some(ReplaceTest(old(Criteria()), i, j, old(Criteria())[i][j].(value := Some(v)))))
    {
      var relevancy := Criteria();
      var block := relevancy[i];
      block := Splice(block, j, 1, [block[j].(value := Some(v))]);
      relevancy := Splice(relevancy, i, 1, [block]);
      values := values.(relevancy := Some(relevancy));
    }
  }

  // ----- relevant topics (QuestionsTopicsMatrix) -----

  /**
   * `handleSelect` on one question: with no list yet a click only creates an empty list;
   * otherwise the topic is removed (and the list with it when it was the only one) or appended.
   */
  /** `rt => rt !== id` */
  function NotId(id: string): string -> bool {
    rt => rt != id
  }

  /** `relevantTopics.filter(rt => rt !== id)`: every occurrence of `id` goes, the rest stays in order. */
  function DropId(l: seq<string>, id: string): (r: seq<string>)
    ensures forall x :: x in r <==> x in l && x != id
    ensures |r| == |l| - multiset(l)[id]
  {
    FilterMembers(l, NotId(id));
    DropIdLength(l, id);
    Filter(l, NotId(id))
  }

  lemma {:induction false} DropIdLength(l: seq<string>, id: string)
    ensures |Filter(l, NotId(id))| == |l| - multiset(l)[id]
  {
    if |l| > 0 {
      DropIdLength(l[1..], id);
      assert l == [l[0]] + l[1..];
      assert multiset(l) == multiset([l[0]]) + multiset(l[1..]);
    }
  }

  /** The remaining topics keep their order: dropping from a concatenation drops from each part. */
  lemma DropIdOrder(a: seq<string>, b: seq<string>, x: string, id: string)
    ensures DropId(a + b, id) == DropId(a, id) + DropId(b, id)
    ensures DropId([x], id) == if x != id then [x] else []
  {
    FilterAppend(a, b, NotId(id));
    assert [x][1..] == [];
    assert NotId(id)(x) == (x != id);
    assert Filter([x], NotId(id)) == (if x != id then [x] else []) + Filter([], NotId(id));
  }

  /** Unchecking "b" in ["a", "b"] leaves ["a"]. */
  lemma DropIdExample()
    ensures DropId(["a", "b"], "b") == ["a"]
  {
    DropIdOrder(["a"], ["b"], "a", "b");
    DropIdOrder(["a"], ["b"], "b", "b");
    assert ["a"] + ["b"] == ["a", "b"];
  }

  function ToggleRelevant(q: Question, id: string): (r: Question)
    ensures r.text == q.text && r.prop == q.prop && r.answers == q.answers && r.relevancy == q.relevancy
    ensures q.relevantTopics.None? ==> r.relevantTopics == Some([])
    ensures q.relevantTopics.Some? && id !in q.relevantTopics.value ==>
      r.relevantTopics == Some(q.relevantTopics.value + [id])
    ensures q.relevantTopics.Some? && id in q.relevantTopics.value && |q.relevantTopics.value| <= 1 ==>
      r.relevantTopics == None
    ensures q.relevantTopics.Some? && id in q.relevantTopics.value && |q.relevantTopics.value| > 1 ==>
      r.relevantTopics == Some(DropId(q.relevantTopics.value, id))
  {
    match q.relevantTopics
    case None => q.(relevantTopics := Some([]))
    case Some(l) =>
      if id in l then
        if |l| <= 1 then q.(relevantTopics := None)
        else q.(relevantTopics := Some(DropId(l, id)))
      else q.(relevantTopics := Some(l + [id]))
  }

  /** On a list that does not hold the topic, two clicks give the list back; on a missing list, three clicks end without one. */
  lemma ToggleRelevantTwice(q: Question, id: string)
    ensures q.relevantTopics.Some? && |q.relevantTopics.value| > 0 && id !in q.relevantTopics.value &&
            NoDuplicates(q.relevantTopics.value) ==>
      ToggleRelevant(ToggleRelevant(q, id), id) == q
    ensures q.relevantTopics.None? ==>
      ToggleRelevant(ToggleRelevant(q, id), id).relevantTopics == Some([id]) &&
      ToggleRelevant(ToggleRelevant(ToggleRelevant(q, id), id), id).relevantTopics == None
  {
    if q.relevantTopics.Some? && |q.relevantTopics.value| > 0 && id !in q.relevantTopics.value {
      var l := q.relevantTopics.value;
      FilterAll(l, NotId(id));
      FilterAppendDrop(l, id);
    }
    if q.relevantTopics.None? {
      var none: seq<string> := [];
      assert none + [id] == [id];
    }
  }

  lemma {:induction false} FilterAppendDrop(l: seq<string>, id: string)
    requires id !in l
    ensures Filter(l + [id], NotId(id)) == l
  {
    if |l| == 0 {
      assert Filter([id], NotId(id)) == [] + Filter([id][1..], NotId(id));
    } else {
      assert (l + [id])[1..] == l[1..] + [id];
      FilterAppendDrop(l[1..], id);
      assert l == [l[0]] + l[1..];
    }
  }

  /** The matrix's main checkbox: a question relevant for all topics gets none, any other gets all. */
  function MainCheckbox(q: Question, topics: seq<Topic>): (r: Question)
    ensures r.text == q.text && r.prop == q.prop && r.answers == q.answers && r.relevancy == q.relevancy
    ensures q.relevantTopics.Some? && |q.relevantTopics.value| == |topics| ==> r.relevantTopics == None
    ensures !(q.relevantTopics.Some? && |q.relevantTopics.value| == |topics|) ==>
      r.relevantTopics.Some? && |r.relevantTopics.value| == |topics| &&
      forall k :: 0 <= k < |topics| ==> r.relevantTopics.value[k] == IdString(topics[k].id)
  {
    if q.relevantTopics.Some? && |q.relevantTopics.value| == |topics| then q.(relevantTopics := None)
    else q.(relevantTopics := Some(seq(|topics|, k requires 0 <= k < |topics| => IdString(topics[k].id))))
  }

  /** The matrix's working copy of the question list. */
  class TopicsMatrix {
    var questions: seq<Question>

    constructor (qs: seq<Question>)
      ensures questions == qs
    {
      questions := qs;
    }

    /** `handleSelect(topic, question, qIndex)`; `changed` is the list handed to `onChange`. */
    method HandleSelect(topic: Topic, question: Question, qIndex: int) returns (changed: seq<Question>)
      modifies this
      ensures questions == Splice(old(questions), qIndex, 1, [ToggleRelevant(question, IdString(topic.id))])
      ensures changed == questions
    {
      var q := ToggleRelevant(question, IdString(topic.id));
      var qList := questions;
      qList := Splice(qList, qIndex, 1, [q]);
      questions := qList;
      changed := qList;
    }

    /** `clickMainCheckbox`: the question is found by `prop`, the decision is taken on the one clicked. */
    method ClickMainCheckbox(question: Question, topics: seq<Topic>)
      modifies this
      ensures var i := FindQuestion(old(questions), question.prop);
        questions == if i >= 0 then old(questions)[i := MainCheckbox(question, topics).(text := old(questions)[i].text,
                                                                          answers := old(questions)[i].answers,
                                                                          relevancy := old(questions)[i].relevancy)]
                     else old(questions)
    {
      var qList := questions;
      var qIndex := FindQuestion(qList, question.prop);
      if qIndex >= 0 {
        var q := qList[qIndex];
        if question.relevantTopics.Some? && |question.relevantTopics.value| == |topics| {
          q := q.(relevantTopics := None);
        } else {
          q := q.(relevantTopics := Some(seq(|topics|, k requires 0 <= k < |topics| => IdString(topics[k].id))));
        }
        SpliceReplace(qList, qIndex, q);
        qList := Splice(qList, qIndex, 1, [q]);
        questions := qList;
      }
    }
  }
}
