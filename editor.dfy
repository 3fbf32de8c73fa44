/**
 * The state of the annotation editor and its handlers. Each handler is one step: it
 * reads the values the state had when the step began, as the component's closures do,
 * and then writes fields in the order the source calls its setters, so the last write
 * to a field is the one that stays.
 */
module Editor {
  import opened Common
  import opened Model
  import opened Lists
  import opened Relevancy
  import opened Traversal
  import opened Answers
  import opened TopicSort
  import Topics
  import Questions
  import TopicNames
  import Json
  import Import

  datatype QuestionAction = EditQuestion | DeleteAnswers | DeleteQuestion

  class AnnotationsEditor {
    var collections: seq<Collection>
    var selectedCollectionId: int
    var currentTaskIndex: nat
    var tasks: seq<Task>
    var topics: seq<Topic>
    var questions: seq<Question>
    var questionIndex: nat
    var collectionName: string
    var annotations: Annotations
    var bulkAnnotations: Annotations
    var selectedTopics: seq<string>
    var tasksToDelete: seq<Task>
    var tasksToBulkApply: seq<Task>
    var deleteTasksWithTopics: bool
    var showFinish: bool

    /** The initial state; `collections` and `selectedCollectionId` come from storage. */
    constructor (stored: seq<Collection>, storedId: int)
      ensures collections == stored && selectedCollectionId == storedId
      ensures currentTaskIndex == 0 && questionIndex == 0 && !showFinish && !deleteTasksWithTopics
      ensures tasks == [] && topics == [] && questions == [] && collectionName == ""
      ensures annotations == map[] && bulkAnnotations == map[] && selectedTopics == []
      ensures tasksToDelete == [] && tasksToBulkApply == []
    {
      collections := stored;
      selectedCollectionId := storedId;
      currentTaskIndex := 0;
      tasks := [];
      topics := [];
      questions := [];
      questionIndex := 0;
      collectionName := "";
      annotations := map[];
      bulkAnnotations := map[];
      selectedTopics := [];
      tasksToDelete := [];
      tasksToBulkApply := [];
      deleteTasksWithTopics := false;
      showFinish := false;
    }

    /** `filteredTasks` */
    function FilteredTasks(): seq<Task>
      reads this
    {
      Topics.FilteredTasks(tasks, selectedTopics)
    }

    function Navigation(): Nav
      reads this
    {
      Nav(currentTaskIndex, questionIndex, showFinish)
    }

    /** `getCollection()`: the working lists under the working name; a patch overrides fields. */
    function GetCollection(): Collection
      reads this
    {
      Collection(collectionName, tasks, Some(topics), Some(questions))
    }

    /** `updateCollection(values)`: replace the selected collection (append when the id is past the end). */
    method UpdateCollection(values: Collection)
      modifies this`collections
      ensures collections == Splice(old(collections), selectedCollectionId, 1, [values])
    {
      collections := Splice(collections, selectedCollectionId, 1, [values]);
    }

    // ----- the traversal -----

    /**
     * `handleNext(index, qi)` over the snapshot `ft`, `qs`. `crashed` is the TypeError
     * of reading `questions[qi].answers` when `qi` is out of range.
     */
    method Next(index: nat, qi: nat, ft: seq<Task>, qs: seq<Question>) returns (crashed: bool)
      modifies this`currentTaskIndex, this`questionIndex, this`showFinish
      ensures crashed <==> Search(ft, qs, index, qi) == Crash
      ensures Navigation() == AfterNext(ft, qs, index, qi, old(Navigation()))
      decreases |qs| - qi, |ft| - index
    {
      crashed := false;
      if index >= |ft| {
        if qi + 1 < |qs| {
          crashed := Next(0, qi + 1, ft, qs);
          questionIndex := qi + 1;
          AfterNextWrap(ft, qs, index, qi, old(Navigation()));
        } else {
          AfterNextPastEnd(ft, qs, index, qi, old(Navigation()));
        }
      } else if qi >= |qs| {
        crashed := true;
      } else {
        var t := ft[index];
        var q := qs[qi];
        if qi >= |qs| - 1 && index >= |ft| - 1 {
          showFinish := true;
        } else if Answered(t, q) {
          AfterNextSkip(ft, qs, index, qi, Navigation());
          crashed := Next(index + 1, qi, ft, qs);
        } else if |TestRelevancy(q, t)| > 0 {
          AfterNextSkip(ft, qs, index, qi, Navigation());
          crashed := Next(index + 1, qi, ft, qs);
        } else {
          questionIndex := qi;
          currentTaskIndex := index;
        }
      }
    }

    /** `handleNext()` without arguments: one task forward, if there is one. */
    method HandleNextTask()
      modifies this`currentTaskIndex
      ensures currentTaskIndex == if old(currentTaskIndex) < |FilteredTasks()| - 1 then old(currentTaskIndex) + 1 else old(currentTaskIndex)
    {
      if currentTaskIndex < |FilteredTasks()| - 1 {
        currentTaskIndex := currentTaskIndex + 1;
      }
    }

    method HandleBack()
      modifies this`currentTaskIndex
      ensures currentTaskIndex == if old(currentTaskIndex) > 0 then old(currentTaskIndex) - 1 else 0
    {
      if currentTaskIndex > 0 {
        currentTaskIndex := currentTaskIndex - 1;
      }
    }

    method HandleBackToFirst()
      modifies this`currentTaskIndex
      ensures currentTaskIndex == 0
    {
      currentTaskIndex := 0;
    }

    method HandleNextToLast()
      modifies this`currentTaskIndex
      ensures currentTaskIndex == if |FilteredTasks()| > 0 then |FilteredTasks()| - 1 else old(currentTaskIndex)
    {
      var ft := FilteredTasks();
      if |ft| > 0 {
        currentTaskIndex := |ft| - 1;
      }
    }

    /** The task counter's "go to task number n" (numbered from 1; empty input does nothing). */
    method GoToTaskNumber(n: Option<int>)
      modifies this`currentTaskIndex
      ensures n.Some? && 0 < n.value <= |FilteredTasks()| ==> currentTaskIndex == n.value - 1
      ensures !(n.Some? && 0 < n.value <= |FilteredTasks()|) ==> currentTaskIndex == old(currentTaskIndex)
    {
      if n.Some? && n.value > 0 && n.value <= |FilteredTasks()| {
        currentTaskIndex := n.value - 1;
      }
    }

    /** "Skip": the traversal from the task after the current one. */
    method Skip() returns (crashed: bool)
      modifies this`currentTaskIndex, this`questionIndex, this`showFinish
      ensures crashed <==> Search(old(FilteredTasks()), questions, old(currentTaskIndex) + 1, old(questionIndex)) == Crash
      ensures Navigation() == AfterNext(old(FilteredTasks()), questions, old(currentTaskIndex) + 1, old(questionIndex), old(Navigation()))
    {
      crashed := Next(currentTaskIndex + 1, questionIndex, FilteredTasks(), questions);
    }

    /** `selectNextAvailableTask(list)` */
    method SelectNextAvailableTask(list: Option<seq<Task>>)
      modifies this`currentTaskIndex
      ensures currentTaskIndex == NextAvailableIndex(list)
    {
      currentTaskIndex := NextAvailableIndex(list);
    }

    // ----- loading a collection -----

    /**
     * `selectCollectionByIndex(i)` as seen from a handler whose snapshot holds the
     * collection list `cols`, the filtered tasks `ft`, the questions `qs` and question `qi`.
     */
    method SelectFrom(cols: seq<Collection>, i: int, ft: seq<Task>, qs: seq<Question>, qi: nat) returns (crashed: bool)
      modifies this`selectedCollectionId, this`tasks, this`topics, this`questions, this`collectionName,
               this`currentTaskIndex, this`questionIndex, this`showFinish
      ensures 0 <= i < |cols| ==>
        selectedCollectionId == i && tasks == cols[i].tasks && collectionName == cols[i].name &&
        topics == cols[i].topics.GetOr(old(topics)) && questions == cols[i].questions.GetOr(old(questions))
      ensures !(0 <= i < |cols|) ==>
        selectedCollectionId == 0 && tasks == old(tasks) && collectionName == old(collectionName) &&
        topics == old(topics) && questions == old(questions)
      ensures crashed <==> Search(ft, qs, 0, qi) == Crash
      ensures Navigation() == AfterNext(ft, qs, 0, qi, old(Navigation()))
    {
      selectedCollectionId := i;
      if 0 <= i < |cols| {
        var c := cols[i];
        tasks := c.tasks;
        if c.topics.Some? {
          topics := c.topics.value;
        }
        if c.questions.Some? {
          questions := c.questions.value;
        }
        collectionName := c.name;
      } else {
        selectedCollectionId := 0;
      }
      crashed := Next(0, qi, ft, qs);
    }

    /** `selectCollectionByIndex(i)`: the traversal runs over the lists as they were before loading. */
    method SelectCollectionByIndex(i: int) returns (crashed: bool)
      modifies this`selectedCollectionId, this`tasks, this`topics, this`questions, this`collectionName,
               this`currentTaskIndex, this`questionIndex, this`showFinish
      ensures 0 <= i < |collections| ==>
        selectedCollectionId == i && tasks == collections[i].tasks && collectionName == collections[i].name &&
        topics == collections[i].topics.GetOr(old(topics)) && questions == collections[i].questions.GetOr(old(questions))
      ensures !(0 <= i < |collections|) ==>
        selectedCollectionId == 0 && tasks == old(tasks) && collectionName == old(collectionName) &&
        topics == old(topics) && questions == old(questions)
      ensures Navigation() == AfterNext(old(FilteredTasks()), old(questions), 0, old(questionIndex), old(Navigation()))
      ensures crashed <==> Search(old(FilteredTasks()), old(questions), 0, old(questionIndex)) == Crash
    {
      crashed := SelectFrom(collections, i, FilteredTasks(), questions, questionIndex);
    }

    /** The first effect: with stored collections and no tasks loaded, load the selected collection. */
    method LoadEffect() returns (crashed: bool)
      modifies this`selectedCollectionId, this`tasks, this`topics, this`questions, this`collectionName,
               this`currentTaskIndex, this`questionIndex, this`showFinish
      ensures !(|old(collections)| > 0 && |old(tasks)| == 0) ==>
        !crashed && tasks == old(tasks) && selectedCollectionId == old(selectedCollectionId) &&
        Navigation() == old(Navigation()) && topics == old(topics) && questions == old(questions) &&
        collectionName == old(collectionName)
      ensures |old(collections)| > 0 && |old(tasks)| == 0 && 0 <= old(selectedCollectionId) < |collections| ==>
        var c := collections[old(selectedCollectionId)];
        tasks == c.tasks && selectedCollectionId == old(selectedCollectionId) && collectionName == c.name &&
        topics == c.topics.GetOr(old(topics)) && questions == c.questions.GetOr(old(questions))
      ensures |old(collections)| > 0 && |old(tasks)| == 0 && !(0 <= old(selectedCollectionId) < |collections|) ==>
        selectedCollectionId == 0 && tasks == [] && collectionName == old(collectionName) &&
        topics == old(topics) && questions == old(questions)
      ensures |old(collections)| > 0 && |old(tasks)| == 0 ==>
        Navigation() == AfterNext(old(FilteredTasks()), old(questions), 0, old(questionIndex), old(Navigation())) &&
        (crashed <==> Search(old(FilteredTasks()), old(questions), 0, old(questionIndex)) == Crash)
    {
      crashed := false;
      if |collections| > 0 && |tasks| == 0 {
        crashed := SelectCollectionByIndex(selectedCollectionId);
      }
    }

    /** The second effect: the answers shown are those of the current task, or none. */
    method AnnotationsEffect()
      modifies this`annotations
      ensures var ft := FilteredTasks();
        annotations == if currentTaskIndex < |ft| then ft[currentTaskIndex].annotations.GetOr(map[]) else map[]
    {
      var ft := FilteredTasks();
      if currentTaskIndex < |ft| && ft[currentTaskIndex].annotations.Some? {
        annotations := ft[currentTaskIndex].annotations.value;
      } else {
        annotations := map[];
      }
    }

    // ----- answering -----

    /** `handleNextQuestion` over the snapshot: the index is raised first, the traversal reads the old one. */
    method HandleNextQuestion(ft: seq<Task>, qs: seq<Question>, qi: nat)
      modifies this`currentTaskIndex, this`questionIndex, this`showFinish
      ensures Navigation() == if qi < |qs| - 1 then AfterNext(ft, qs, 0, qi, old(Navigation()).(question := qi + 1))
                              else old(Navigation())
    {
      if qi < |qs| - 1 {
        questionIndex := qi + 1;
        var _ := Next(0, qi, ft, qs);
      }
    }

    /** The store step of `saveAndNext`: task `i` with its answers replaced, then the collection. */
    method StoreAnswers(i: nat, ann: Annotations, patch: Collection)
      requires i < |tasks|
      modifies this`tasks, this`collections
      ensures tasks == old(tasks)[i := old(tasks)[i].(annotations := Some(ann))]
      ensures collections == Splice(old(collections), selectedCollectionId, 1, [patch.(tasks := tasks)])
    {
      SpliceReplace(tasks, i, tasks[i].(annotations := Some(ann)));
      var t := Splice(tasks, i, 1, [tasks[i].(annotations := Some(ann))]);
      tasks := t;
      UpdateCollection(patch.(tasks := t));
    }

    /**
     * `saveAndNext(ann)` over the snapshot: store `ann` in the task with the current task's
     * id, update the collection, clear the answers shown and move on. `crashed` is the
     * TypeError of reading the id of a task that is not there.
     */
    method SaveAndNext(ann: Annotations, ft: seq<Task>, qs: seq<Question>, qi: nat, cur: nat, patch: Collection)
        returns (crashed: bool)
      modifies this`annotations, this`tasks, this`collections,
               this`currentTaskIndex, this`questionIndex, this`showFinish
      ensures crashed <==> cur >= |ft|
      ensures var i := SavedIndex(ft, cur, old(tasks));
        (i >= 0 ==>
          tasks == old(tasks)[i := old(tasks)[i].(annotations := Some(ann))] &&
          collections == Splice(old(collections), selectedCollectionId, 1, [patch.(tasks := tasks)]) &&
          annotations == map[] &&
          Navigation() == AfterNext(ft, qs, cur + 1, qi, old(Navigation()))) &&
        (i < 0 ==>
          tasks == old(tasks) && collections == old(collections) && annotations == old(annotations) &&
          Navigation() == old(Navigation()))
    {
      crashed := false;
      if cur >= |ft| {
        crashed := true;
        return;
      }
      var tId := ft[cur].id;
      if tId != "" {
        var tIndex := FindTask(tasks, tId);
        if tIndex >= 0 {
          StoreAnswers(tIndex, ann, patch);
          annotations := map[];
          var _ := Next(cur + 1, qi, ft, qs);
        }
      }
    }

    /**
     * `setQuestionAnswer(prop, v)`: toggle the answer, move to the next question when the
     * current task is the last one, then save the answers into the task and move on.
     */
    method SetQuestionAnswer(prop: string, v: Value) returns (crashed: bool)
      modifies this`annotations, this`tasks, this`collections,
               this`currentTaskIndex, this`questionIndex, this`showFinish
      ensures var ft, qs, qi, cur := old(FilteredTasks()), old(questions), old(questionIndex), old(currentTaskIndex);
        var ann := Toggle(old(annotations), prop, v);
        var n1 := if cur >= |ft| - 1 && qi < |qs| - 1 then AfterNext(ft, qs, 0, qi, old(Navigation()).(question := qi + 1))
                  else old(Navigation());
        var i := SavedIndex(ft, cur, old(tasks));
        (crashed <==> cur >= |ft|) &&
        (i >= 0 ==>
          tasks == old(tasks)[i := old(tasks)[i].(annotations := Some(ann))] &&
          collections == Splice(old(collections), selectedCollectionId, 1, [old(GetCollection()).(tasks := tasks)]) &&
          annotations == map[] &&
          Navigation() == AfterNext(ft, qs, cur + 1, qi, n1)) &&
        (i < 0 ==>
          tasks == old(tasks) && collections == old(collections) && annotations == ann && Navigation() == n1)
    {
      var ft, qs, qi, cur := FilteredTasks(), questions, questionIndex, currentTaskIndex;
      var patch := GetCollection();
      var q := Toggle(annotations, prop, v);
      annotations := q;
      if cur >= |ft| - 1 {
        HandleNextQuestion(ft, qs, qi);
      }
      crashed := SaveAndNext(q, ft, qs, qi, cur, patch);
    }

    /** `setBulkQuestionAnswer(prop, v)`: the same toggle, on the bulk draft. */
    method SetBulkQuestionAnswer(prop: string, v: Value)
      modifies this`bulkAnnotations
      ensures bulkAnnotations == Toggle(old(bulkAnnotations), prop, v)
    {
      bulkAnnotations := Toggle(bulkAnnotations, prop, v);
    }

    method OpenBulkAnswers()
      modifies this`tasksToBulkApply
      ensures tasksToBulkApply == Topics.BulkTargets(tasks, selectedTopics)
    {
      tasksToBulkApply := Topics.BulkTargets(tasks, selectedTopics);
    }

    method CancelBulk()
      modifies this`tasksToBulkApply
      ensures tasksToBulkApply == []
    {
      tasksToBulkApply := [];
    }

    /** `applyBulkAnswers`: apply the draft to the chosen tasks, store them, clear the draft and the choice. */
    method ApplyBulkAnswers()
      modifies this`tasks, this`collections, this`bulkAnnotations, this`tasksToBulkApply
      ensures tasks == ApplyBulk(old(tasks), TaskIds(old(tasksToBulkApply)), old(bulkAnnotations)) &&
        collections == Splice(old(collections), selectedCollectionId, 1, [old(GetCollection()).(tasks := tasks)])
      ensures bulkAnnotations == map[] && tasksToBulkApply == []
    {
      var patch := GetCollection();
      var newTasks := ApplyBulk(tasks, TaskIds(tasksToBulkApply), bulkAnnotations);
      tasks := newTasks;
      UpdateCollection(patch.(tasks := newTasks));
      bulkAnnotations := map[];
      tasksToBulkApply := [];
    }

    // ----- topic selection and deletion -----

    /** `handleCheckTopic(t)`: flip the topic in the selection and go back to the first task. */
    method HandleCheckTopic(t: Topic)
      modifies this`selectedTopics, this`currentTaskIndex
      ensures selectedTopics == Topics.CheckTopic(old(selectedTopics), t.id)
      ensures currentTaskIndex == 0
    {
      selectedTopics := Topics.CheckTopic(selectedTopics, t.id);
      currentTaskIndex := NextAvailableIndex(None);
    }

    /** `toggleSelection`: select all or nothing, then pick a task in the list filtered before the change. */
    method ToggleSelection()
      modifies this`selectedTopics, this`currentTaskIndex
      ensures selectedTopics == Topics.ToggleSelection(old(selectedTopics), topics)
      ensures currentTaskIndex == NextAvailableIndex(Some(old(FilteredTasks())))
    {
      var ft := FilteredTasks();
      selectedTopics := Topics.ToggleSelection(selectedTopics, topics);
      currentTaskIndex := NextAvailableIndex(Some(ft));
    }

    method OpenDeleteTopic()
      modifies this`tasksToDelete
      ensures tasksToDelete == Topics.TasksToDelete(tasks, selectedTopics)
    {
      tasksToDelete := Topics.TasksToDelete(tasks, selectedTopics);
    }

    method CancelDeleteTopics()
      modifies this`deleteTasksWithTopics
      ensures !deleteTasksWithTopics
    {
      deleteTasksWithTopics := false;
    }

    /**
     * `confirmDeleteTopics`: drop the selected topics; either drop the proposed tasks, or
     * store (in the collection only) the tasks with their selected string topics set to -1.
     */
    method ConfirmDeleteTopics()
      modifies this`topics, this`tasks, this`collections, this`selectedTopics
      ensures topics == Topics.RemainingTopics(old(topics), old(selectedTopics))
      ensures old(deleteTasksWithTopics) ==>
        tasks == Topics.KeepUnproposed(old(tasks), tasksToDelete) &&
        collections == Splice(old(collections), selectedCollectionId, 1, [old(GetCollection()).(topics := Some(topics), tasks := tasks)])
      ensures !old(deleteTasksWithTopics) ==>
        tasks == old(tasks) &&
        collections == Splice(old(collections), selectedCollectionId, 1,
          [old(GetCollection()).(topics := Some(topics),
             tasks := Topics.StrictRewriteAll(old(tasks), old(selectedTopics)))])
      ensures selectedTopics == []
    {
      var patch := GetCollection();
      var newTopics := Topics.RemainingTopics(topics, selectedTopics);
      var newTasks := Topics.StrictRewriteAll(tasks, selectedTopics);
      topics := newTopics;
      if deleteTasksWithTopics {
        var kept := Topics.KeepUnproposed(tasks, tasksToDelete);
        tasks := kept;
        UpdateCollection(patch.(topics := Some(newTopics), tasks := kept));
      } else {
        UpdateCollection(patch.(topics := Some(newTopics), tasks := newTasks));
      }
      selectedTopics := [];
    }

    // ----- topic edits -----

    /** `handleDrop`: move the dragged topic; a drop outside the list changes nothing. */
    method HandleDrop(from: nat, to: Option<nat>)
      requires from < |topics|
      modifies this`topics, this`collections
      ensures to.Some? ==>
        topics == Move(old(topics), from, to.value) &&
        collections == Splice(old(collections), selectedCollectionId, 1, [old(GetCollection()).(topics := Some(topics))])
      ensures to.None? ==> topics == old(topics) && collections == old(collections)
    {
      if to.Some? {
        var patch := GetCollection();
        var list := topics;
        var item := list[from];
        list := Splice(list, from, 1, []);
        list := Splice(list, to.value, 0, [item]);
        topics := list;
        UpdateCollection(patch.(topics := Some(list)));
      }
    }

    /** `sortTopicsBy(action, ascending)` */
    method SortTopicsBy(action: SortBy, ascending: bool)
      modifies this`topics, this`collections
      ensures topics == Sort(old(topics), Order(action, ascending, tasks))
      ensures collections == Splice(old(collections), selectedCollectionId, 1, [old(GetCollection()).(topics := Some(topics))])
    {
      var patch := GetCollection();
      var list := Sort(topics, Order(action, ascending, tasks));
      topics := list;
      UpdateCollection(patch.(topics := Some(list)));
    }

    /** `handleTopicChange(t, index)`: the topic at `index` replaced (appended past the end). */
    method HandleTopicChange(t: Topic, index: int)
      modifies this`topics, this`collections
      ensures topics == Splice(old(topics), index, 1, [t])
      ensures collections == Splice(old(collections), selectedCollectionId, 1, [old(GetCollection()).(topics := Some(topics))])
    {
      var patch := GetCollection();
      var top := Splice(topics, index, 1, [t]);
      topics := top;
      UpdateCollection(patch.(topics := Some(top)));
    }

    /** `handleTaskTopicUpdate(topic)` */
    method HandleTaskTopicUpdate(topic: Topic)
      modifies this`topics, this`collections
      ensures topics == Topics.TaskTopicUpdate(old(topics), topic)
      ensures collections == Splice(old(collections), selectedCollectionId, 1, [old(GetCollection()).(topics := Some(topics))])
    {
      var patch := GetCollection();
      var top := Topics.TaskTopicUpdate(topics, topic);
      topics := top;
      UpdateCollection(patch.(topics := Some(top)));
    }

    /**
     * `handleTaskTopicChange(index, value)`: sentence `index` of the current task gets
     * topic `value`; the collection is not updated. Only offered while a task is shown.
     */
    method HandleTaskTopicChange(index: nat, value: int)
      requires currentTaskIndex < |FilteredTasks()| && index < |FilteredTasks()[currentTaskIndex].sentences|
      modifies this`tasks
      ensures var task := old(FilteredTasks())[currentTaskIndex];
        var i := if task.id != "" then FindTask(old(tasks), task.id) else -1;
        tasks == if i >= 0 then old(tasks)[i := Topics.RetagSentence(task, index, value)] else old(tasks)
    {
      var task := FilteredTasks()[currentTaskIndex];
      if task.id != "" {
        var tIndex := FindTask(tasks, task.id);
        if tIndex >= 0 {
          var changed := Topics.RetagSentence(task, index, value);
          SpliceReplace(tasks, tIndex, changed);
          tasks := Splice(tasks, tIndex, 1, [changed]);
        }
      }
    }

    /** `autoFormat`: every topic name made readable. */
    method AutoFormat()
      modifies this`topics, this`collections
      ensures topics == FormattedAll(old(topics))
      ensures collections == Splice(old(collections), selectedCollectionId, 1, [old(GetCollection()).(topics := Some(topics))])
    {
      var patch := GetCollection();
      var top := FormatNames(topics);
      topics := top;
      UpdateCollection(patch.(topics := Some(top)));
    }

    // ----- questions -----

    /** `handleSaveMapping(list)` and `onQuestionsUpdate(list)`: store the new question list. */
    method SaveQuestions(list: seq<Question>)
      modifies this`questions, this`collections
      ensures questions == list
      ensures collections == Splice(old(collections), selectedCollectionId, 1, [old(GetCollection()).(questions := Some(list))])
    {
      var patch := GetCollection();
      questions := list;
      UpdateCollection(patch.(questions := Some(list)));
    }

    /** The question list's `handleSave(question)`: an upsert by `prop`, then stored. */
    method SaveQuestion(q: Question)
      modifies this`questions, this`collections
      ensures questions == Questions.Upsert(old(questions), q)
      ensures collections == Splice(old(collections), selectedCollectionId, 1, [old(GetCollection()).(questions := Some(questions))])
    {
      SaveQuestions(Questions.Upsert(questions, q));
    }

    /** The question list's `handleDrop`. */
    method DropQuestion(from: nat, to: Option<nat>)
      requires from < |questions|
      modifies this`questions, this`collections
      ensures to.Some? ==>
        questions == Move(old(questions), from, to.value) &&
        collections == Splice(old(collections), selectedCollectionId, 1, [old(GetCollection()).(questions := Some(questions))])
      ensures to.None? ==> questions == old(questions) && collections == old(collections)
    {
      if to.Some? {
        SaveQuestions(Move(questions, from, to.value));
      }
    }

    /** `handleQuestionAction(action, q, i)`; editing is handled by the question list itself. */
    method HandleQuestionAction(action: QuestionAction, q: Question, i: int)
      modifies this`tasks, this`questions, this`collections
      ensures action == DeleteAnswers ==>
        tasks == Answers.DeleteAnswers(old(tasks), q.prop) && questions == old(questions) &&
        collections == Splice(old(collections), selectedCollectionId, 1, [old(GetCollection()).(tasks := tasks)])
      ensures action == DeleteQuestion ==>
        tasks == old(tasks) && questions == Splice(old(questions), i, 1, []) &&
        collections == Splice(old(collections), selectedCollectionId, 1, [old(GetCollection()).(questions := Some(questions))])
      ensures action == EditQuestion ==>
        tasks == old(tasks) && questions == old(questions) && collections == old(collections)
    {
      var patch := GetCollection();
      if action == DeleteAnswers {
        var newTasks := Answers.DeleteAnswers(tasks, q.prop);
        tasks := newTasks;
        UpdateCollection(patch.(tasks := newTasks));
      } else if action == DeleteQuestion {
        var qList := Splice(questions, i, 1, []);
        questions := qList;
        UpdateCollection(patch.(questions := Some(qList)));
      }
    }

    // ----- the collection store -----

    /** `handleSaveCollection` and `handleDuplicateCollection` both append the working collection. */
    method HandleSaveCollection()
      modifies this`collections
      ensures collections == old(collections) + [GetCollection()]
    {
      collections := collections + [GetCollection()];
    }

    method HandleDuplicateCollection()
      modifies this`collections
      ensures collections == old(collections) + [GetCollection()]
    {
      collections := collections + [GetCollection()];
    }

    /**
     * `handleDeleteCollection`: the last collection takes tasks and topics with it (the
     * questions stay); otherwise the first collection of the list before the deletion is loaded.
     */
    method HandleDeleteCollection() returns (crashed: bool)
      modifies this`collections, this`selectedCollectionId, this`tasks, this`topics, this`questions,
               this`collectionName, this`currentTaskIndex, this`questionIndex, this`showFinish
      ensures |old(collections)| <= 1 ==>
        collections == [] && selectedCollectionId == 0 && tasks == [] && topics == [] &&
        questions == old(questions) && collectionName == old(collectionName) && Navigation() == old(Navigation()) && !crashed
      ensures |old(collections)| > 1 ==>
        var first := old(collections)[0];
        collections == Splice(old(collections), old(selectedCollectionId), 1, []) &&
        selectedCollectionId == 0 && tasks == first.tasks && collectionName == first.name &&
        topics == first.topics.GetOr(old(topics)) && questions == first.questions.GetOr(old(questions)) &&
        Navigation() == AfterNext(old(FilteredTasks()), old(questions), 0, old(questionIndex), old(Navigation())) &&
        (crashed <==> Search(old(FilteredTasks()), old(questions), 0, old(questionIndex)) == Crash)
    {
      crashed := false;
      if |collections| <= 1 {
        collections := [];
        selectedCollectionId := 0;
        tasks := [];
        topics := [];
      } else {
        var cols, ft, qs, qi := collections, FilteredTasks(), questions, questionIndex;
        collections := Splice(collections, selectedCollectionId, 1, []);
        selectedCollectionId := 0;
        crashed := SelectFrom(cols, 0, ft, qs, qi);
      }
    }

    /**
     * `createCollectionFromMultiple`. The files are given parsed; `records` is what the
     * accepted files hold, as editor records.
     */
    method CreateCollectionFromMultiple(tasksFile: Option<Json.Json>, topicsFile: Option<Json.Json>,
                                        questionsFile: Option<Json.Json>, topicsIncluded: bool,
                                        questionsIncluded: bool, records: Collection)
        returns (outcome: Result<Import.Parts, Import.CreateError>)
      modifies this`collections, this`selectedCollectionId
      ensures outcome == Import.CreateFromMultiple(collectionName, CollectionNames(old(collections)),
                           tasksFile, topicsFile, questionsFile, topicsIncluded, questionsIncluded)
      ensures outcome.Ok? ==>
        collections == old(collections) + [Collection(collectionName, records.tasks,
                                             if topicsIncluded then records.topics else None,
                                             if questionsIncluded then records.questions else None)] &&
        selectedCollectionId == old(selectedCollectionId) + 1
      ensures outcome.Err? ==> collections == old(collections) && selectedCollectionId == old(selectedCollectionId)
    {
      outcome := Import.CreateFromMultiple(collectionName, CollectionNames(collections),
                   tasksFile, topicsFile, questionsFile, topicsIncluded, questionsIncluded);
      if outcome.Ok? {
        collections := collections + [Collection(collectionName, records.tasks,
                                         if topicsIncluded then records.topics else None,
                                         if questionsIncluded then records.questions else None)];
        selectedCollectionId := selectedCollectionId + 1;
      }
    }

    /** `createCollectionFromCombined`, with `records` as in the multiple-file import. */
    method CreateCollectionFromCombined(file: Option<Json.Json>, records: Collection)
        returns (outcome: Result<Json.Json, Import.CreateError>)
      modifies this`collections, this`selectedCollectionId
      ensures outcome == Import.CreateFromCombined(collectionName, CollectionNames(old(collections)), file)
      ensures outcome.Ok? ==>
        collections == old(collections) + [records.(name := collectionName)] &&
        selectedCollectionId == old(selectedCollectionId) + 1
      ensures outcome.Err? ==> collections == old(collections) && selectedCollectionId == old(selectedCollectionId)
    {
      outcome := Import.CreateFromCombined(collectionName, CollectionNames(collections), file);
      if outcome.Ok? {
        collections := collections + [records.(name := collectionName)];
        selectedCollectionId := selectedCollectionId + 1;
      }
    }
  }

  /** A topic under its readable name. */
  function Formatted(t: Topic): Topic {
    t.(name := TopicNames.TopicName(t.name))
  }

  /** Every topic of the list under its readable name. */
  function FormattedAll(list: seq<Topic>): (r: seq<Topic>)
    ensures |r| == |list|
    ensures forall m :: 0 <= m < |list| ==> r[m] == Formatted(list[m])
  {
    if |list| == 0 then [] else FormattedAll(list[..|list| - 1]) + [Formatted(list[|list| - 1])]
  }

  /** Formatting the names twice is the same as once. */
  lemma FormattedAllIdempotent(list: seq<Topic>)
    ensures FormattedAll(FormattedAll(list)) == FormattedAll(list)
  {
    forall m | 0 <= m < |list|
      ensures Formatted(Formatted(list[m])) == Formatted(list[m])
    {
      TopicNames.TopicNameIdempotent(list[m].name);
    }
  }

  /** `topics.map(t => ({ ...t, name: buildTopicName(t.name) }))` */
  method FormatNames(list: seq<Topic>) returns (top: seq<Topic>)
    ensures top == FormattedAll(list)
  {
    top := [];
    var k := 0;
    while k < |list|
      invariant 0 <= k <= |list|
      invariant top == FormattedAll(list[..k])
    {
      var name := TopicNames.BuildTopicName(list[k].name);
      assert list[..k + 1][..k] == list[..k];
      top := top + [list[k].(name := name)];
      k := k + 1;
    }
    assert list[..k] == list;
  }

  /** Where `saveAndNext` stores the answers: the task with the current task's id, if it has a non-empty one. */
  function SavedIndex(ft: seq<Task>, cur: nat, tasks: seq<Task>): (r: int)
    ensures -1 <= r < |tasks|
    ensures r >= 0 ==>
      (cur < |ft| && ft[cur].id != "" && tasks[r].id == ft[cur].id &&
       forall k :: 0 <= k < r ==> tasks[k].id != ft[cur].id)
    ensures r == -1 <==> cur >= |ft| || ft[cur].id == "" || forall k :: 0 <= k < |tasks| ==> tasks[k].id != ft[cur].id
  {
    if cur < |ft| && ft[cur].id != "" then FindTask(tasks, ft[cur].id) else -1
  }

  /** `collections.map(c => c.name)` */
  function CollectionNames(cols: seq<Collection>): (r: seq<string>)
    ensures |r| == |cols| && forall k :: 0 <= k < |cols| ==> r[k] == cols[k].name
  {
    seq(|cols|, k requires 0 <= k < |cols| => cols[k].name)
  }

  /** Saving into the selected collection replaces it when the id is in range and appends otherwise. */
  lemma UpdateCollectionSpec(cols: seq<Collection>, id: int, c: Collection)
    ensures 0 <= id < |cols| ==> Splice(cols, id, 1, [c]) == cols[id := c]
    ensures id >= |cols| ==> Splice(cols, id, 1, [c]) == cols + [c]
  {
    if 0 <= id < |cols| { SpliceReplace(cols, id, c); }
    if id >= |cols| { SpliceReplacePastEnd(cols, id, c); }
  }
}
