/**
 * Topic selection and deletion: the filtered task list, the bulk and delete targets,
 * the deletion itself, the selection toggles, the topic edits made from a task, and
 * the per-task topic counter.
 */
module Topics {
  import opened Common
  import opened Model
  import opened Lists

  /** Some sentence of the task carries a selected topic, compared as `String(topic)`. */
  predicate HasSelected(t: Task, sel: seq<string>) {
    exists k :: 0 <= k < |t.sentences| && IdString(t.sentences[k].topic) in sel
  }

  /** `task => task.sentences.some(s => selectedTopics.includes(String(s.topic)))` */
  function Touches(sel: seq<string>): Task -> bool {
    (t: Task) => HasSelected(t, sel)
  }

  /** `filteredTasks`: with a selection, the tasks touching it; without one, all tasks. */
  function FilteredTasks(tasks: seq<Task>, sel: seq<string>): (r: seq<Task>)
    ensures |sel| == 0 ==> r == tasks
    ensures |r| <= |tasks|
    ensures forall t :: t in r <==> t in tasks && (|sel| == 0 || HasSelected(t, sel))
  {
    if |sel| > 0 then
      FilterMembers(tasks, Touches(sel));
      Filter(tasks, Touches(sel))
    else tasks
  }

  /**
   * The filtered list keeps the order of the tasks: filtering a concatenation filters each
   * part, and a single task stays exactly when it is kept. The two equations determine the
   * result, so task `i` of the filtered list is the `i`-th kept task in task order.
   */
  lemma FilteredTasksOrder(a: seq<Task>, b: seq<Task>, t: Task, sel: seq<string>)
    ensures FilteredTasks(a + b, sel) == FilteredTasks(a, sel) + FilteredTasks(b, sel)
    ensures FilteredTasks([t], sel) == if |sel| == 0 || HasSelected(t, sel) then [t] else []
  {
    FilterAppend(a, b, Touches(sel));
    assert [t][1..] == [];
    assert Touches(sel)(t) == HasSelected(t, sel);
    assert Filter([t], Touches(sel)) == (if HasSelected(t, sel) then [t] else []) + Filter([], Touches(sel));
  }

  /** The tasks `openBulkAnswers` offers: those touching the selection (none when nothing is selected). */
  function BulkTargets(tasks: seq<Task>, sel: seq<string>): (r: seq<Task>)
    ensures |sel| == 0 ==> r == []
    ensures forall t :: t in r <==> t in tasks && HasSelected(t, sel)
  {
    FilterMembers(tasks, Touches(sel));
    if |sel| == 0 then
      assert forall t :: !HasSelected(t, sel);
      FilterNone(tasks, Touches(sel));
      Filter(tasks, Touches(sel))
    else Filter(tasks, Touches(sel))
  }

  lemma {:induction false} FilterNone<T>(s: seq<T>, p: T -> bool)
    requires forall x :: !p(x)
    ensures Filter(s, p) == []
  {
    if |s| > 0 {
      FilterNone(s[1..], p);
    }
  }

  // ----- openDeleteTopic -----

  /** `topic == -1` with JavaScript's loose equality, for the spellings the model knows. */
  predicate LooseNoTopic(id: TopicId) {
    id == NoTopic || id == TStr("-1")
  }

  /** The preview rewrite: a sentence whose `String(topic)` is selected gets topic -1. */
  function Remodel(t: Task, sel: seq<string>): Task {
    t.(sentences := seq(|t.sentences|, k requires 0 <= k < |t.sentences| =>
      var s := t.sentences[k];
      s.(topic := if IdString(s.topic) in sel then NoTopic else s.topic)))
  }

  /** Every sentence of the rewritten task is loosely -1. */
  predicate AllNoTopic(t: Task) {
    forall k :: 0 <= k < |t.sentences| ==> LooseNoTopic(t.sentences[k].topic)
  }

  /** `tasksToDelete`: the rewritten tasks left without any topic. */
  function TasksToDelete(tasks: seq<Task>, sel: seq<string>): seq<Task> {
    Filter(seq(|tasks|, i requires 0 <= i < |tasks| => Remodel(tasks[i], sel)), AllNoTopic)
  }

  /** Every sentence of the original task is selected or already without topic. */
  predicate LosesAllTopics(t: Task, sel: seq<string>) {
    forall k :: 0 <= k < |t.sentences| ==>
      IdString(t.sentences[k].topic) in sel || LooseNoTopic(t.sentences[k].topic)
  }

  lemma RemodelMarked(t: Task, sel: seq<string>)
    ensures AllNoTopic(Remodel(t, sel)) <==> LosesAllTopics(t, sel)
  {
    var r := Remodel(t, sel);
    if LosesAllTopics(t, sel) {
      forall k | 0 <= k < |r.sentences| ensures LooseNoTopic(r.sentences[k].topic) {
        assert IdString(t.sentences[k].topic) in sel || LooseNoTopic(t.sentences[k].topic);
      }
    }
    if AllNoTopic(r) {
      forall k | 0 <= k < |t.sentences|
        ensures IdString(t.sentences[k].topic) in sel || LooseNoTopic(t.sentences[k].topic)
      {
        assert LooseNoTopic(r.sentences[k].topic);
      }
    }
  }

  /**
   * The tasks proposed for deletion are, up to the rewrite of their topics, exactly the
   * tasks all of whose sentences are selected or without topic; a task without any
   * sentence is always proposed.
   */
  lemma TasksToDeleteSpec(tasks: seq<Task>, sel: seq<string>)
    ensures forall i :: 0 <= i < |tasks| && LosesAllTopics(tasks[i], sel) ==>
      Remodel(tasks[i], sel) in TasksToDelete(tasks, sel)
    ensures forall x :: x in TasksToDelete(tasks, sel) ==>
      exists i :: 0 <= i < |tasks| && x == Remodel(tasks[i], sel) && LosesAllTopics(tasks[i], sel)
    ensures forall i :: 0 <= i < |tasks| && |tasks[i].sentences| == 0 ==>
      Remodel(tasks[i], sel) in TasksToDelete(tasks, sel)
  {
    var rs := seq(|tasks|, i requires 0 <= i < |tasks| => Remodel(tasks[i], sel));
    FilterMembers(rs, AllNoTopic);
    forall i | 0 <= i < |tasks| ensures AllNoTopic(rs[i]) <==> LosesAllTopics(tasks[i], sel) {
      RemodelMarked(tasks[i], sel);
    }
    forall x | x in TasksToDelete(tasks, sel)
      ensures exists i :: 0 <= i < |tasks| && x == Remodel(tasks[i], sel) && LosesAllTopics(tasks[i], sel)
    {
      var i :| 0 <= i < |rs| && rs[i] == x;
      assert x == Remodel(tasks[i], sel) && LosesAllTopics(tasks[i], sel);
    }
    forall i | 0 <= i < |tasks| && LosesAllTopics(tasks[i], sel)
      ensures Remodel(tasks[i], sel) in TasksToDelete(tasks, sel)
    {
      assert rs[i] in rs;
    }
  }

  // ----- confirmDeleteTopics -----

  /** `t => !selectedTopics.includes(String(t.id))` */
  function Unselected(sel: seq<string>): Topic -> bool {
    (t: Topic) => IdString(t.id) !in sel
  }

  /** The topics that stay: those whose `String(id)` is not selected, in their order. */
  function RemainingTopics(topics: seq<Topic>, sel: seq<string>): (r: seq<Topic>)
    ensures |r| <= |topics|
    ensures forall t :: t in r <==> t in topics && IdString(t.id) !in sel
  {
    FilterMembers(topics, Unselected(sel));
    Filter(topics, Unselected(sel))
  }

  /**
   * The kept topics keep their order: deleting from a concatenation deletes from each part,
   * and a single topic stays exactly when its `String(id)` is not selected.
   */
  lemma RemainingTopicsOrder(a: seq<Topic>, b: seq<Topic>, t: Topic, sel: seq<string>)
    ensures RemainingTopics(a + b, sel) == RemainingTopics(a, sel) + RemainingTopics(b, sel)
    ensures RemainingTopics([t], sel) == if IdString(t.id) !in sel then [t] else []
  {
    FilterAppend(a, b, Unselected(sel));
    assert [t][1..] == [];
    assert Unselected(sel)(t) == (IdString(t.id) !in sel);
    assert Filter([t], Unselected(sel)) == (if IdString(t.id) !in sel then [t] else []) + Filter([], Unselected(sel));
  }

  /** Deleting with an empty selection keeps every topic. */
  lemma RemainingTopicsNoSelection(topics: seq<Topic>)
    ensures RemainingTopics(topics, []) == topics
  {
    FilterAll(topics, Unselected([]));
  }

  /**
   * The rewrite of `confirmDeleteTopics`: `selectedTopics.includes(s.topic)` is strict,
   * so only a string topic equal to a selected string becomes -1.
   */
  function StrictRewrite(t: Task, sel: seq<string>): (r: Task)
    ensures r.id == t.id && r.title == t.title && r.annotations == t.annotations
    ensures |r.sentences| == |t.sentences|
    ensures forall k :: 0 <= k < |t.sentences| ==> r.sentences[k].text == t.sentences[k].text
  {
    t.(sentences := seq(|t.sentences|, k requires 0 <= k < |t.sentences| =>
      var s := t.sentences[k];
      s.(topic := if s.topic.TStr? && s.topic.s in sel then NoTopic else s.topic)))
  }

  /** A sentence's topic becomes -1 exactly when it is a selected string; numeric topics never change. */
  lemma StrictRewriteTopics(t: Task, sel: seq<string>)
    ensures forall k :: 0 <= k < |t.sentences| ==>
      (t.sentences[k].topic.TStr? && t.sentences[k].topic.s in sel ==> StrictRewrite(t, sel).sentences[k].topic == NoTopic) &&
      (!(t.sentences[k].topic.TStr? && t.sentences[k].topic.s in sel) ==> StrictRewrite(t, sel).sentences[k] == t.sentences[k])
  {
  }

  /** The rewrite applied to every task. */
  function StrictRewriteAll(tasks: seq<Task>, sel: seq<string>): (r: seq<Task>)
    ensures |r| == |tasks| && forall k :: 0 <= k < |tasks| ==> r[k] == StrictRewrite(tasks[k], sel)
  {
    seq(|tasks|, k requires 0 <= k < |tasks| => StrictRewrite(tasks[k], sel))
  }

  /** No proposed task has the id of `t`. */
  predicate Unproposed(t: Task, proposed: seq<Task>) {
    forall p :: p in proposed ==> p.id != t.id
  }

  /** `t => !tasksToDeleteId.includes(String(t.id))`, task ids being strings */
  function NotProposed(proposed: seq<Task>): Task -> bool {
    (t: Task) => Unproposed(t, proposed)
  }

  /** The deleting branch keeps the original tasks whose id was not proposed. */
  function KeepUnproposed(tasks: seq<Task>, proposed: seq<Task>): (r: seq<Task>)
    ensures |r| <= |tasks|
    ensures forall t :: t in r <==> t in tasks && forall p :: p in proposed ==> p.id != t.id
  {
    FilterMembers(tasks, NotProposed(proposed));
    Filter(tasks, NotProposed(proposed))
  }

  /**
   * The kept tasks keep their order: a concatenation keeps each part's kept tasks, and a
   * single task stays exactly when no proposed task has its id.
   */
  lemma KeepUnproposedOrder(a: seq<Task>, b: seq<Task>, t: Task, proposed: seq<Task>)
    ensures KeepUnproposed(a + b, proposed) == KeepUnproposed(a, proposed) + KeepUnproposed(b, proposed)
    ensures KeepUnproposed([t], proposed) == if Unproposed(t, proposed) then [t] else []
  {
    FilterAppend(a, b, NotProposed(proposed));
    assert [t][1..] == [];
    assert NotProposed(proposed)(t) == Unproposed(t, proposed);
    assert Filter([t], NotProposed(proposed)) == (if Unproposed(t, proposed) then [t] else []) + Filter([], NotProposed(proposed));
  }

  /**
   * Selecting topic "1" and deleting: the topic with numeric id 1 leaves the topic list,
   * but a sentence tagged with the number 1 keeps its topic.
   */
  lemma NumericTopicSurvivesDeletion()
    ensures var topic := Topic("One", TNum(1), "", None);
            var t := Task("a", "", [Sentence("x", TNum(1))], None);
            RemainingTopics([topic], ["1"]) == [] &&
            StrictRewrite(t, ["1"]).sentences[0].topic == TNum(1)
  {
    var topic := Topic("One", TNum(1), "", None);
    assert IdString(TNum(1)) == "1";
    assert topic !in RemainingTopics([topic], ["1"]);
  }

  // ----- selection -----

  /** `handleCheckTopic`: remove the topic's id string from the selection, or append it. */
  function CheckTopic(sel: seq<string>, id: TopicId): (r: seq<string>)
    ensures IdString(id) in sel ==> |r| == |sel| - 1
    ensures IdString(id) !in sel ==> r == sel + [IdString(id)]
    ensures forall x :: x != IdString(id) ==> (x in r <==> x in sel)
  {
    var i := IndexOf(sel, IdString(id));
    if i >= 0 then RemoveAt(sel, i) else sel + [IdString(id)]
  }

  /** On a selection without repeats one check flips the topic's membership and keeps the selection free of repeats. */
  lemma CheckTopicFlips(sel: seq<string>, id: TopicId)
    requires NoDuplicates(sel)
    ensures IdString(id) in CheckTopic(sel, id) <==> IdString(id) !in sel
    ensures NoDuplicates(CheckTopic(sel, id))
  {
    var x := IdString(id);
    var i := IndexOf(sel, x);
    if i >= 0 {
      var r := RemoveAt(sel, i);
      forall a, b | 0 <= a < b < |r| ensures r[a] != r[b] {
        var a' := if a < i then a else a + 1;
        var b' := if b < i then b else b + 1;
        assert r[a] == sel[a'] && r[b] == sel[b'];
      }
    }
  }

  /** Checking the same topic twice restores a selection that did not hold it. */
  lemma CheckTopicTwice(sel: seq<string>, id: TopicId)
    requires IdString(id) !in sel
    ensures CheckTopic(CheckTopic(sel, id), id) == sel
  {
    var r := sel + [IdString(id)];
    assert IndexOf(r, IdString(id)) == |sel| by {
      assert r[..|sel|] == sel;
    }
    assert RemoveAt(r, |sel|) == sel;
  }

  /** `toggleSelection`: clear a full selection, otherwise select every topic. */
  function ToggleSelection(sel: seq<string>, topics: seq<Topic>): (r: seq<string>)
    ensures |sel| > 0 && |sel| == |topics| ==> r == []
    ensures !(|sel| > 0 && |sel| == |topics|) ==>
      |r| == |topics| && forall i :: 0 <= i < |topics| ==> r[i] == IdString(topics[i].id)
  {
    if |sel| > 0 && |sel| == |topics| then [] else seq(|topics|, i requires 0 <= i < |topics| => IdString(topics[i].id))
  }

  /** After selecting all, each topic's filter applies; a second toggle clears a non-empty selection. */
  lemma ToggleSelectionTwice(sel: seq<string>, topics: seq<Topic>)
    requires |topics| > 0 && !(|sel| > 0 && |sel| == |topics|)
    ensures forall t :: t in topics ==> IdString(t.id) in ToggleSelection(sel, topics)
    ensures ToggleSelection(ToggleSelection(sel, topics), topics) == []
  {
    var r := ToggleSelection(sel, topics);
    forall t | t in topics ensures IdString(t.id) in r {
      var i :| 0 <= i < |topics| && topics[i] == t;
      assert r[i] == IdString(t.id);
    }
  }

  // ----- topic edits from a task -----

  /** `topics.map(t => t.id)` */
  function TopicIds(topics: seq<Topic>): (r: seq<TopicId>)
    ensures |r| == |topics| && forall k :: 0 <= k < |topics| ==> r[k] == topics[k].id
  {
    seq(|topics|, k requires 0 <= k < |topics| => topics[k].id)
  }

  /** `topics.findIndex(t => t.id === id)` */
  function FindTopic(topics: seq<Topic>, id: TopicId): (r: int)
    ensures -1 <= r < |topics|
    ensures r >= 0 ==> topics[r].id == id && forall k :: 0 <= k < r ==> topics[k].id != id
    ensures r == -1 ==> forall k :: 0 <= k < |topics| ==> topics[k].id != id
  {
    IndexOf(TopicIds(topics), id)
  }

  /** `handleTaskTopicUpdate`: replace the topic with the same id, but only at a position above 0. */
  function TaskTopicUpdate(topics: seq<Topic>, topic: Topic): (r: seq<Topic>)
    ensures |r| == |topics|
  {
    var i := FindTopic(topics, topic.id);
    if i > 0 then Splice(topics, i, 1, [topic]) else topics
  }

  /**
   * The update replaces only the first topic with the given id and leaves everything else;
   * the topic in first position is never replaced.
   */
  lemma TaskTopicUpdateSpec(topics: seq<Topic>, topic: Topic)
    ensures var r := TaskTopicUpdate(topics, topic);
      (|topics| > 0 ==> r[0] == topics[0]) &&
      forall k :: 0 <= k < |topics| ==>
        r[k] == (if 0 < k && k == FindTopic(topics, topic.id) then topic else topics[k])
  {
    var i := FindTopic(topics, topic.id);
    if i > 0 {
      SpliceReplace(topics, i, topic);
    }
  }

  /** A topic whose id is first in the list cannot be edited from a task. */
  lemma FirstTopicNeverUpdated(t0: Topic, rest: seq<Topic>, edit: Topic)
    requires edit.id == t0.id && edit != t0
    ensures TaskTopicUpdate([t0] + rest, edit) == [t0] + rest
  {
  }

  /** `handleTaskTopicChange`: sentence `index` of a task gets the numeric topic `value`. */
  function RetagSentence(t: Task, index: nat, value: int): (r: Task)
    requires index < |t.sentences|
    ensures r.id == t.id && r.title == t.title && r.annotations == t.annotations
    ensures |r.sentences| == |t.sentences|
    ensures r.sentences[index] == Sentence(t.sentences[index].text, TNum(value))
    ensures forall k :: 0 <= k < |t.sentences| && k != index ==> r.sentences[k] == t.sentences[k]
  {
    SpliceReplace(t.sentences, index, Sentence(t.sentences[index].text, TNum(value)));
    t.(sentences := Splice(t.sentences, index, 1, [Sentence(t.sentences[index].text, TNum(value))]))
  }

  // ----- topicsMap -----

  /** How many sentences have topic key `key` (`String(topic)`, as an object key). */
  function CountTopic(ss: seq<Sentence>, key: string): (r: nat)
    ensures r <= |ss|
    ensures r > 0 <==> exists k :: 0 <= k < |ss| && IdString(ss[k].topic) == key
  {
    if |ss| == 0 then 0
    else
      var rest := CountTopic(ss[1..], key);
      assert forall k :: 1 <= k < |ss| ==> ss[k] == ss[1..][k - 1];
      (if IdString(ss[0].topic) == key then 1 else 0) + rest
  }

  lemma {:induction false} CountTopicAppend(ss: seq<Sentence>, s: Sentence, key: string)
    ensures CountTopic(ss + [s], key) == CountTopic(ss, key) + (if IdString(s.topic) == key then 1 else 0)
  {
    if |ss| > 0 {
      assert (ss + [s])[1..] == ss[1..] + [s];
      CountTopicAppend(ss[1..], s, key);
    }
  }

  /** The topic counter of a task: one key per topic present, with its number of sentences. */
  ghost predicate IsTopicsMap(m: map<string, nat>, ss: seq<Sentence>) {
    (forall key :: key in m <==> CountTopic(ss, key) > 0) &&
    (forall key :: key in m ==> m[key] == CountTopic(ss, key))
  }

  /** Counting one more sentence keeps the counter exact. */
  lemma TopicsMapStep(m: map<string, nat>, ss: seq<Sentence>, s: Sentence)
    requires IsTopicsMap(m, ss)
    ensures var key := IdString(s.topic);
      IsTopicsMap(if key !in m then m[key := 1] else m[key := m[key] + 1], ss + [s])
  {
    forall k ensures CountTopic(ss + [s], k) == CountTopic(ss, k) + (if IdString(s.topic) == k then 1 else 0) {
      CountTopicAppend(ss, s, k);
    }
  }

  /** `topicsMap`: one pass over the sentences, starting a key at 1 or incrementing it. */
  method TopicsMap(ss: seq<Sentence>) returns (m: map<string, nat>)
    ensures IsTopicsMap(m, ss)
  {
    m := map[];
    var i := 0;
    while i < |ss|
      invariant 0 <= i <= |ss|
      invariant IsTopicsMap(m, ss[..i])
    {
      var key := IdString(ss[i].topic);
      assert ss[..i + 1] == ss[..i] + [ss[i]];
      ghost var before := m;
      if key !in m {
        m := m[key := 1];
      } else {
        m := m[key := m[key] + 1];
      }
      TopicsMapStep(before, ss[..i], ss[i]);
      i := i + 1;
    }
    assert ss[..i] == ss;
  }

  /** Two sentences on topic 1, one on topic 2: the counter holds {"1": 2, "2": 1}. */
  lemma TopicsMapExample()
    ensures IsTopicsMap(map["1" := 2, "2" := 1], [Sentence("a", TNum(1)), Sentence("b", TNum(2)), Sentence("c", TNum(1))])
  {
    var ss := [Sentence("a", TNum(1)), Sentence("b", TNum(2)), Sentence("c", TNum(1))];
    assert IdString(TNum(1)) == "1" && IdString(TNum(2)) == "2";
    assert ss[1..] == [Sentence("b", TNum(2)), Sentence("c", TNum(1))];
    assert ss[1..][1..] == [Sentence("c", TNum(1))];
    forall key ensures key in map["1" := 2, "2" := 1] <==> CountTopic(ss, key) > 0 {
      if CountTopic(ss, key) > 0 {
        var k :| 0 <= k < |ss| && IdString(ss[k].topic) == key;
      }
    }
  }
}
