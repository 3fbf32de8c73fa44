# Annotation editor core, modelled in Dafny

This project models the workflow engine of the document annotation editor (`AnnotationsEditor.tsx`).
A **collection** holds three lists:

- **tasks**: documents made of sentences, each tagged with a topic;
- **topics**;
- **questions**: each question stores its answer in a task's `annotations` under the question's `prop`.

The model covers:

- **Importing**: the shape checks of imported JSON and the accept or throw decision of `importFile`.
- **Relevancy**: the evaluator `testRelevancy`, an AND of OR-tests over the stored answers that returns the blocks that fail.
- **Traversal**: the search `handleNext`, which walks tasks × questions and skips answered and irrelevant pairs.
- **Answer edits**: single and bulk answers, and removing answers.
- **Topic operations**: selection, deletion, reordering, sorting, renaming and counting.
- **Question-list edits**: the upsert, the relevancy-criteria editors and the topic matrix.
- **The collection store**: loading, saving, duplicating, deleting and creating collections.

Modules, one per file:

- **Pure logic** (datatypes, functions and lemmas): `Common`, `Json`, `Validation`, `Import`, `Model`, `Lists`, `Relevancy`, `Traversal`, `Answers`, `Topics`, `TopicNames`, `TopicSort` and `Questions`.
- **Component state**: the class `Editor.AnnotationsEditor` holds the state fields. Its methods are the handlers.

Each handler is one step. It reads the state as it was when the step began, as the component's closures do. It then assigns fields in the order the source calls its setters, so the last write to a field is the one that stays. Two consequences:

- The traversal writes the question index *after* its recursive call, so a search that wraps past several questions leaves `questionIndex` at the starting question plus one. This is proved in `Traversal.WrapTwiceExample`.
- `handleDeleteCollection` reloads from the collection list as it was before the deletion.

A JavaScript `TypeError` is modelled as an outcome, not excluded by a precondition. The checks return `Throw`, and the handlers return `crashed`. Writes made before the error stay.

Some behaviour of the code is easy to misread:

- `isValidTopic` only asks for a `name` key.
- `isValidData` requires all three lists to be valid and non-empty.
- `confirmDeleteTopics` compares sentence topics with a strict `includes`. After the user selects the topic with numeric id `1`, sentences tagged with the number 1 keep their topic (`Topics.NumericTopicSurvivesDeletion`).

## Model

| member | source | states |
|---|---|---|
| Json.Prop | components/annotations/AnnotationsEditor.tsx:135-145 | a property read gives a value exactly for an object having that key |
| Validation.EveryAccepts | components/annotations/AnnotationsEditor.tsx:88 | `every` accepts iff every item's check accepts |
| Validation.EveryFirstFailure | components/annotations/AnnotationsEditor.tsx:88 | a failing `every` takes the verdict of the first item that is not accepted, all earlier items being accepted |
| Validation.ValidListIff | components/annotations/AnnotationsEditor.tsx:123-133 | a list check accepts iff the value is a non-empty array whose every item passes |
| Validation.ValidTaskIff | components/annotations/AnnotationsEditor.tsx:78-91 | a task is accepted iff it has `id`, `title` and an array `sentences` whose items all have `text` and `topic`; an empty sentence list is accepted |
| Validation.AndTestsIff | components/annotations/AnnotationsEditor.tsx:113-121 | a relevancy block is accepted iff it is an array of objects with a string `prop` |
| Validation.ValidQuestionIff | components/annotations/AnnotationsEditor.tsx:98-121 | a question is accepted iff `text` and `prop` are strings, all answers have a string `label`, and a truthy `relevancy` is an array of such blocks |
| Validation.ValidDataIff | components/annotations/AnnotationsEditor.tsx:135-146 | combined data is accepted iff tasks, topics and questions are all valid lists |
| Validation.TopicsThrowIff | components/annotations/AnnotationsEditor.tsx:93-96 | checking topics throws iff a null item comes before any topic without `name` |
| Import.LengthPositive | components/annotations/AnnotationsEditor.tsx:198 | `data.length` fails exactly on null and is the array length for arrays |
| Import.ImportReturnsData | components/annotations/AnnotationsEditor.tsx:189-216 | an accepted import returns the parsed data unchanged, and a missing file gives `[]` |
| Import.ImportListIff | components/annotations/AnnotationsEditor.tsx:198-213 | a list file is accepted iff it is a non-empty array whose items all pass; an empty array is "No file provided" |
| Import.ImportComboIff | components/annotations/AnnotationsEditor.tsx:193-196 | a combined file is accepted iff it is not null and `isValidData` holds |
| Import.NameGuard | components/annotations/AnnotationsEditor.tsx:1799-1804 | creation passes the guards iff the name is non-empty and not already used; an empty name is reported first |
| Import.CreateFromMultiple | components/annotations/AnnotationsEditor.tsx:1797-1841 | a collection is created iff the guards pass and the tasks file and each included file import; it holds exactly the included parts |
| Import.CreateFromCombined | components/annotations/AnnotationsEditor.tsx:1843-1866 | a combined collection is created iff the guards pass and the file imports |
| Model.NatToString | components/annotations/AnnotationsEditor.tsx:1710 | `String(n)` of a natural number is a non-empty string of digits, starting with 0 only for 0 |
| Model.NatToStringDecimal | components/annotations/AnnotationsEditor.tsx:1710 | reading the numeral back as a decimal number gives n |
| Model.NatToStringInjective | components/annotations/AnnotationsEditor.tsx:1710 | different natural numbers print differently |
| Model.NumIdStringInjective | components/annotations/AnnotationsEditor.tsx:2155 | two numeric ids have the same `String(id)` only when they are the same number |
| Model.SameStringDifferentIds | components/annotations/AnnotationsEditor.tsx:1710 | the number 1 and the string "1" print alike but are not strictly equal |
| Lists.ClampStart | components/annotations/AnnotationsEditor.tsx:1899 | `splice` starts at the given index when it is in range and at the end when it is past it |
| Lists.SpliceReplace | components/annotations/AnnotationsEditor.tsx:1899 | `splice(i, 1, x)` inside the array replaces element i |
| Lists.SpliceReplacePastEnd | components/annotations/AnnotationsEditor.tsx:1899 | `splice(i, 1, x)` at or past the end appends x |
| Lists.SpliceRemove | components/annotations/AnnotationsEditor.tsx:2191 | `splice(i, 1)` removes element i |
| Lists.SpliceInsert | components/annotations/AnnotationsEditor.tsx:2206 | `splice(i, 0, x)` inserts x before position i |
| Lists.MoveSpec | components/annotations/AnnotationsEditor.tsx:2201-2207 | a drag move keeps length and multiset, puts the moved element at `to`, and keeps the others in relative order |
| Lists.MoveInPlace | components/annotations/AnnotationsEditor.tsx:2201-2207 | dropping an element where it was changes nothing |
| Lists.FilterMembers | components/annotations/AnnotationsEditor.tsx:1710 | `filter` keeps exactly the elements satisfying the predicate and never grows the list |
| Lists.FilterAll | components/annotations/AnnotationsEditor.tsx:1710 | a filter every element satisfies returns the list |
| Lists.FilterAppend | components/annotations/AnnotationsEditor.tsx:1710 | `filter` keeps the order: filtering a concatenation filters each part |
| Lists.IndexOf | components/annotations/AnnotationsEditor.tsx:1912 | `findIndex` by equality gives -1 iff the element is absent, else its first position |
| Relevancy.Lookup | components/annotations/AnnotationsEditor.tsx:232 | reading an answer is defined exactly when the key is present |
| Relevancy.ReduceIsFilter | components/annotations/AnnotationsEditor.tsx:228-239 | the reduce appends to its accumulator exactly the failed blocks, in order |
| Relevancy.TestRelevancy | components/annotations/AnnotationsEditor.tsx:225-242 | no relevancy, an empty relevancy or a task without answers gives `[]`; otherwise the result is the non-empty unmatched blocks in order |
| Relevancy.FailedMembers | components/annotations/AnnotationsEditor.tsx:228-239 | a block is returned iff it is one of the question's blocks, non-empty, and none of its tests matches |
| Relevancy.NoEmptyBlockReported | components/annotations/AnnotationsEditor.tsx:229 | an empty block is never returned |
| Relevancy.RelevantIff | components/annotations/AnnotationsEditor.tsx:225-242 | the result is empty iff there is no relevancy, no answers, or every non-empty block has a matching test |
| Relevancy.SecondBlockFails | components/annotations/AnnotationsEditor.tsx:225-242 | with two blocks of which only the second is unmatched, exactly the second is returned |
| Relevancy.AbsentMatchesAbsent | components/annotations/AnnotationsEditor.tsx:231-233 | a test without value matches a question the task has not answered |
| Traversal.SettleSound | components/annotations/AnnotationsEditor.tsx:1981-2002 | a settled pair exists, is not answered among the question's values, is relevant, and is not the last task of the last question |
| Traversal.SettleFirst | components/annotations/AnnotationsEditor.tsx:1972-2002 | every pair visited before the settled one was answered or irrelevant |
| Traversal.SearchComplete | components/annotations/AnnotationsEditor.tsx:1972-2002 | if any visited pair other than the last needs an answer, the search settles |
| Traversal.SearchCrashIff | components/annotations/AnnotationsEditor.tsx:1983-1984 | the traversal throws iff the question index is out of range while tasks remain |
| Traversal.NeverCrashes | components/annotations/AnnotationsEditor.tsx:1962-2005 | from an existing question the traversal never throws |
| Traversal.FinishReachesLast | components/annotations/AnnotationsEditor.tsx:1985-1987 | finishing means the last pair was reached and every earlier visited pair was skipped |
| Traversal.LaterQuestionMeansWrap | components/annotations/AnnotationsEditor.tsx:1975-1979 | settling on a later question means the search wrapped, so the index written is the start question plus one |
| Traversal.NoWrapWritesSettledQuestion | components/annotations/AnnotationsEditor.tsx:1998-2001 | without a wrap the settled question is the starting one and is the index written |
| Traversal.WrapTwiceExample | components/annotations/AnnotationsEditor.tsx:1975-1979 | a task answering questions 0 and 1 of four settles on question 2 while the question index left is 1 |
| Traversal.AfterNextSkip | components/annotations/AnnotationsEditor.tsx:1989-1997 | skipping a pair that needs no answer does not change where the traversal ends |
| Traversal.AfterNextWrap | components/annotations/AnnotationsEditor.tsx:1972-1979 | running off the tasks continues at the next question, whose index is written last |
| Traversal.AfterNextPastEnd | components/annotations/AnnotationsEditor.tsx:1972-1980 | past the end at the last question nothing changes |
| Traversal.AfterNextFinish | components/annotations/AnnotationsEditor.tsx:1985-1987 | reaching the last pair raises the finish banner and leaves the current task |
| Traversal.FindUnannotated | components/annotations/AnnotationsEditor.tsx:1752 | `findIndex(t => !t.annotations)` gives the first task without answers, or -1 |
| Traversal.NextAvailableIsFirstUnannotated | components/annotations/AnnotationsEditor.tsx:1750-1758 | despite `|| -1`, the task chosen is the first without answers, or 0 when every task has answers |
| Answers.Toggle | components/annotations/AnnotationsEditor.tsx:2013-2021 | the key is removed iff it held the chosen value, otherwise it holds it; all other keys are unchanged |
| Answers.ToggleTwice | components/annotations/AnnotationsEditor.tsx:2028-2037 | choosing the same value twice restores the map, unless a different value was stored before |
| Answers.Merge | components/annotations/AnnotationsEditor.tsx:2124-2127 | draft keys win over stored ones, and every other stored key is kept |
| Answers.ApplyBulk | components/annotations/AnnotationsEditor.tsx:2114-2135 | the task count and order are kept, unchosen tasks are unchanged, and only answers may change |
| Answers.ApplyBulkSelected | components/annotations/AnnotationsEditor.tsx:2117-2131 | on a chosen task a non-empty draft is merged over the answers, and an empty draft removes them |
| Answers.ApplyBulkIdempotent | components/annotations/AnnotationsEditor.tsx:2114-2135 | applying the same draft twice equals applying it once |
| Answers.DeleteAnswers | components/annotations/AnnotationsEditor.tsx:2180-2187 | task count, ids, titles and sentences are kept |
| Answers.DeleteAnswersSpec | components/annotations/AnnotationsEditor.tsx:2180-2187 | afterwards no task answers the question and no empty answer map is left; a map that stays is exactly the old one without the question's key, so nothing is added and a task without answers keeps none; every other answer is kept |
| Answers.DeleteAnswersIdempotent | components/annotations/AnnotationsEditor.tsx:2180-2187 | deleting a question's answers twice equals deleting them once |
| Answers.TaskIds | components/annotations/AnnotationsEditor.tsx:2115 | the ids of the chosen tasks, position by position |
| Answers.FindTask | components/annotations/AnnotationsEditor.tsx:2051 | the first task with an id strictly equal to the given one, or -1 |
| Topics.FilteredTasks | components/annotations/AnnotationsEditor.tsx:1708-1713 | without a selection all tasks; with one, exactly the tasks having a sentence whose `String(topic)` is selected |
| Topics.FilteredTasksOrder | components/annotations/AnnotationsEditor.tsx:1708-1713 | the filtered list keeps task order: it distributes over concatenation, and a single task stays iff it touches the selection (or nothing is selected) |
| Topics.BulkTargets | components/annotations/AnnotationsEditor.tsx:2103-2107 | exactly the tasks touching the selection (none when nothing is selected) |
| Topics.RemodelMarked | components/annotations/AnnotationsEditor.tsx:2091-2093 | a rewritten task has only topic -1 iff each original sentence was selected or had no topic |
| Topics.TasksToDeleteSpec | components/annotations/AnnotationsEditor.tsx:2091-2096 | the proposed tasks are, rewritten, exactly those left without topics; a task without sentences is always proposed |
| Topics.RemainingTopics | components/annotations/AnnotationsEditor.tsx:2155 | the kept topics are exactly those whose `String(id)` is not selected |
| Topics.RemainingTopicsOrder | components/annotations/AnnotationsEditor.tsx:2155 | the kept topics keep their order: deletion distributes over concatenation, and a single topic stays iff its `String(id)` is not selected |
| Topics.RemainingTopicsNoSelection | components/annotations/AnnotationsEditor.tsx:2155 | with nothing selected every topic stays, in order |
| Topics.StrictRewrite | components/annotations/AnnotationsEditor.tsx:2156 | a rewritten task keeps id, title, answers, sentence count and texts |
| Topics.StrictRewriteTopics | components/annotations/AnnotationsEditor.tsx:2156 | a topic becomes -1 exactly when it is a selected string; every other sentence is unchanged |
| Topics.StrictRewriteAll | components/annotations/AnnotationsEditor.tsx:2156 | every task rewritten, position by position |
| Topics.KeepUnproposed | components/annotations/AnnotationsEditor.tsx:2159-2160 | the kept tasks are exactly the original tasks whose id was not proposed, never more than before |
| Topics.KeepUnproposedOrder | components/annotations/AnnotationsEditor.tsx:2159-2160 | the kept tasks keep their order: the filter distributes over concatenation, and a single task stays iff no proposed task has its id |
| Topics.NumericTopicSurvivesDeletion | components/annotations/AnnotationsEditor.tsx:2154-2165 | after selecting "1", the topic with id 1 is deleted but a sentence tagged with the number 1 keeps it |
| Topics.CheckTopic | components/annotations/AnnotationsEditor.tsx:1910-1919 | a selected id is removed, an unselected one appended; other ids keep their membership |
| Topics.CheckTopicFlips | components/annotations/AnnotationsEditor.tsx:1910-1919 | on a selection without repeats the topic's membership flips and no repeat appears |
| Topics.CheckTopicTwice | components/annotations/AnnotationsEditor.tsx:1910-1919 | checking an unselected topic twice restores the selection |
| Topics.ToggleSelection | components/annotations/AnnotationsEditor.tsx:2144-2150 | a full non-empty selection is cleared, anything else becomes every topic's id string |
| Topics.ToggleSelectionTwice | components/annotations/AnnotationsEditor.tsx:2144-2150 | after selecting all, every topic is selected and a second toggle clears the selection |
| Topics.FindTopic | components/annotations/AnnotationsEditor.tsx:1789 | the first topic with a strictly equal id, or -1 |
| Topics.TaskTopicUpdate | components/annotations/AnnotationsEditor.tsx:1786-1795 | the topic count is kept |
| Topics.TaskTopicUpdateSpec | components/annotations/AnnotationsEditor.tsx:1786-1795 | only the first topic with the id is replaced, and only above position 0; the first topic is never replaced |
| Topics.FirstTopicNeverUpdated | components/annotations/AnnotationsEditor.tsx:1790 | an edit of the first topic is lost |
| Topics.RetagSentence | components/annotations/AnnotationsEditor.tsx:1775-1778 | sentence `index` keeps its text and gets the numeric topic, while every other sentence is unchanged |
| Topics.CountTopic | components/annotations/AnnotationsEditor.tsx:1285-1297 | a topic's count is positive iff some sentence has that topic key |
| Topics.CountTopicAppend | components/annotations/AnnotationsEditor.tsx:1288-1295 | one more sentence adds one to its own topic key only |
| Topics.TopicsMapStep | components/annotations/AnnotationsEditor.tsx:1288-1295 | starting a key at 1 or incrementing it keeps the counter exact |
| Topics.TopicsMap | components/annotations/AnnotationsEditor.tsx:1285-1297 | the counter has one key per topic present, holding its number of sentences |
| Topics.TopicsMapExample | components/annotations/AnnotationsEditor.tsx:1285-1297 | two sentences on topic 1 and one on topic 2 count as {"1": 2, "2": 1} |
| TopicNames.Upper | components/annotations/AnnotationsEditor.tsx:150 | a lower-case ASCII letter becomes the capital of the same letter, every other character is kept; underscores and digits stay what they are |
| TopicNames.UpperIdempotent | components/annotations/AnnotationsEditor.tsx:150 | upper-casing twice equals once |
| TopicNames.Capitalize | components/annotations/AnnotationsEditor.tsx:149-151 | only the first character is upper-cased, and the length is kept |
| TopicNames.Split | components/annotations/AnnotationsEditor.tsx:1924 | a split has at least one piece and no piece contains `_` |
| TopicNames.SplitJoin | components/annotations/AnnotationsEditor.tsx:1924 | joining the pieces with `_` gives the name back |
| TopicNames.SplitAtSeparator | components/annotations/AnnotationsEditor.tsx:1924 | the piece before the first `_` comes first |
| TopicNames.SplitNoSeparator | components/annotations/AnnotationsEditor.tsx:1924 | a name without `_` is its only piece |
| TopicNames.BuildTopicName | components/annotations/AnnotationsEditor.tsx:1923-1932 | the loop yields the readable name: non-empty, non-numeric pieces capitalized and joined by spaces |
| TopicNames.WordsGood | components/annotations/AnnotationsEditor.tsx:1926-1930 | every pushed piece is non-empty, non-numeric, free of `_` and already capitalized |
| TopicNames.JoinNoUnderscore | components/annotations/AnnotationsEditor.tsx:1931 | joining pieces without `_` by spaces gives no `_` |
| TopicNames.JoinStartsWithFirst | components/annotations/AnnotationsEditor.tsx:1931 | the joined text begins with the first piece |
| TopicNames.TopicNameNoUnderscore | components/annotations/AnnotationsEditor.tsx:1923-1932 | a readable name contains no underscore |
| TopicNames.TopicNameIdempotent | components/annotations/AnnotationsEditor.tsx:1923-1932 | formatting a formatted name changes nothing |
| TopicNames.SplitExample | components/annotations/AnnotationsEditor.tsx:1924 | "foo_bar_2" splits into "foo", "bar", "2" |
| TopicNames.WordsExample | components/annotations/AnnotationsEditor.tsx:1926-1930 | of "foo", "bar", "2" the loop keeps "Foo" and "Bar" |
| TopicNames.TopicNameExample | components/annotations/AnnotationsEditor.tsx:1923-1932 | "foo_bar_2" becomes "Foo Bar" |
| TopicSort.TextLtIrreflexive | components/annotations/AnnotationsEditor.tsx:2233-2235 | no name is before itself |
| TopicSort.TextLtTransitive | components/annotations/AnnotationsEditor.tsx:2233-2235 | string order is transitive |
| TopicSort.TextLtTotal | components/annotations/AnnotationsEditor.tsx:2233-2235 | of two different strings one is before the other |
| TopicSort.KeyOrder | components/annotations/AnnotationsEditor.tsx:2214-2256 | the comparator keys form a strict total order |
| TopicSort.TasksUsing | components/annotations/AnnotationsEditor.tsx:2219-2220 | the number of tasks using a topic never exceeds the task count |
| TopicSort.TasksUsingCounts | components/annotations/AnnotationsEditor.tsx:2218-2219 | the count is the number of tasks having a sentence whose topic is strictly the id, and those are exactly the tasks counted |
| TopicSort.BeforeOrder | components/annotations/AnnotationsEditor.tsx:2214-2256 | "goes before" is irreflexive, transitive and asymmetric, with ties exactly on equal keys |
| TopicSort.NotBeforeTransitive | components/annotations/AnnotationsEditor.tsx:2214-2256 | "does not go before" is transitive |
| TopicSort.Insert | components/annotations/AnnotationsEditor.tsx:2214-2256 | insertion adds exactly the new topic to the multiset |
| TopicSort.Sort | components/annotations/AnnotationsEditor.tsx:2214-2256 | the sorted list is a permutation of the topics |
| TopicSort.InsertSorted | components/annotations/AnnotationsEditor.tsx:2214-2256 | insertion into an ordered list keeps it ordered |
| TopicSort.InsertWithKey | components/annotations/AnnotationsEditor.tsx:2214-2256 | inserting a topic before the others of its key keeps each key's topics in order |
| TopicSort.SortSorted | components/annotations/AnnotationsEditor.tsx:2214-2256 | the result is ordered by the comparator, ascending or descending |
| TopicSort.SortStable | components/annotations/AnnotationsEditor.tsx:2214-2256 | topics the comparator ties keep their relative order |
| TopicSort.SortKeepsSorted | components/annotations/AnnotationsEditor.tsx:2214-2256 | an already ordered list is left as it is |
| Questions.FindQuestion | components/annotations/AnnotationsEditor.tsx:817 | the first question with a strictly equal `prop`, or -1 |
| Questions.Upsert | components/annotations/AnnotationsEditor.tsx:815-829 | a question with the same `prop` is replaced in place, otherwise the new one is appended |
| Questions.UpsertUnique | components/annotations/AnnotationsEditor.tsx:815-829 | saving keeps `prop`s unique, and the saved question is the one found under its `prop` |
| Questions.UpsertIdempotent | components/annotations/AnnotationsEditor.tsx:815-829 | saving the same question twice equals saving it once |
| Questions.InsertBlankTest | components/annotations/AnnotationsEditor.tsx:533-539 | a blank test is inserted right after test j of block i, with all else unchanged |
| Questions.AppendBlankBlock | components/annotations/AnnotationsEditor.tsx:541-545 | a block with one blank test is appended |
| Questions.RemoveTest | components/annotations/AnnotationsEditor.tsx:547-558 | test j is removed; a block left empty is removed too |
| Questions.RemoveBlock | components/annotations/AnnotationsEditor.tsx:560-568 | block i is removed; no block left means no relevancy |
| Questions.ReplaceTest | components/annotations/AnnotationsEditor.tsx:570-584 | only test j of block i is replaced |
| Questions.CriteriaKeepBlocksNonEmpty | components/annotations/AnnotationsEditor.tsx:533-584 | no criteria edit creates an empty block |
| Questions.DeleteUndoesAdd | components/annotations/AnnotationsEditor.tsx:533-558 | deleting the test just added gives the criteria back |
| Questions.DeleteBlockUndoesAddBlock | components/annotations/AnnotationsEditor.tsx:541-568 | deleting the block just added gives the criteria back (or none when there were none) |
| Questions.QuestionForm.constructor | components/annotations/AnnotationsEditor.tsx:457-473 | the form holds the values of the question it edits |
| Questions.QuestionForm.AddCriteria | components/annotations/AnnotationsEditor.tsx:533-539 | the form's relevancy becomes the criteria with the blank test inserted |
| Questions.QuestionForm.AddCriteriaBlock | components/annotations/AnnotationsEditor.tsx:541-545 | the form's relevancy gets a new blank block |
| Questions.QuestionForm.DeleteCriteria | components/annotations/AnnotationsEditor.tsx:547-558 | the form's relevancy loses the test and stays present even when empty |
| Questions.QuestionForm.DeleteCriteriaBlock | components/annotations/AnnotationsEditor.tsx:560-568 | the form's relevancy loses the block and disappears with the last one |
| Questions.QuestionForm.SetCriteriaQuestion | components/annotations/AnnotationsEditor.tsx:570-576 | test j of block i gets the new `prop` |
| Questions.QuestionForm.SetCriteriaAnswer | components/annotations/AnnotationsEditor.tsx:578-584 | test j of block i gets the new value |
| Questions.ToggleRelevant | components/annotations/AnnotationsEditor.tsx:1495-1511 | an absent list becomes `[]`; a present topic is dropped from a longer list as `DropId` does, and the list goes when it is the only one; a missing one is appended |
| Questions.DropId | components/annotations/AnnotationsEditor.tsx:1504 | the filtered list holds exactly the other topics, and its length is the old length less the occurrences of the topic |
| Questions.DropIdLength | components/annotations/AnnotationsEditor.tsx:1504 | the filter removes exactly the occurrences of the topic |
| Questions.DropIdOrder | components/annotations/AnnotationsEditor.tsx:1504 | the remaining topics keep their order: dropping from a concatenation drops from each part, and a single topic stays iff it is another one |
| Questions.DropIdExample | components/annotations/AnnotationsEditor.tsx:1504 | unchecking "b" in ["a", "b"] leaves ["a"] |
| Questions.ToggleRelevantTwice | components/annotations/AnnotationsEditor.tsx:1495-1511 | two clicks restore a non-empty list without the topic; from no list, the second click gives `[id]` and the third gives no list |
| Questions.MainCheckbox | components/annotations/AnnotationsEditor.tsx:1528-1551 | a question relevant for as many topics as there are loses its list, any other gets all topic ids |
| Questions.TopicsMatrix.constructor | components/annotations/AnnotationsEditor.tsx:1489-1493 | the matrix starts from the question list it is given |
| Questions.TopicsMatrix.HandleSelect | components/annotations/AnnotationsEditor.tsx:1495-1518 | the toggled question is spliced in at its index and the new list is passed to `onChange` |
| Questions.TopicsMatrix.ClickMainCheckbox | components/annotations/AnnotationsEditor.tsx:1536-1551 | the question found by `prop` gets none or all topics, decided on the clicked question |
| Editor.AnnotationsEditor.constructor | components/annotations/AnnotationsEditor.tsx:1670-1706 | the initial state: stored collections and id, everything else empty or zero |
| Editor.AnnotationsEditor.UpdateCollection | components/annotations/AnnotationsEditor.tsx:1897-1901 | the selected collection is replaced, or the collection appended when the id is past the end |
| Editor.AnnotationsEditor.Next | components/annotations/AnnotationsEditor.tsx:1962-2005 | the recursive traversal writes exactly the navigation state `AfterNext` describes; it crashes iff the search does |
| Editor.AnnotationsEditor.HandleNextTask | components/annotations/AnnotationsEditor.tsx:1964-1967 | one task forward when one exists |
| Editor.AnnotationsEditor.HandleBack | components/annotations/AnnotationsEditor.tsx:1952-1956 | one task back unless at the first |
| Editor.AnnotationsEditor.HandleBackToFirst | components/annotations/AnnotationsEditor.tsx:1958-1960 | the first task |
| Editor.AnnotationsEditor.HandleNextToLast | components/annotations/AnnotationsEditor.tsx:2007-2011 | the last task when there is one |
| Editor.AnnotationsEditor.GoToTaskNumber | components/annotations/AnnotationsEditor.tsx:1629-1634 | task number n (from 1) when 0 < n ≤ the task count; otherwise nothing |
| Editor.AnnotationsEditor.Skip | components/annotations/AnnotationsEditor.tsx:2479 | the traversal from the next task |
| Editor.AnnotationsEditor.SelectNextAvailableTask | components/annotations/AnnotationsEditor.tsx:1750-1758 | the current task becomes the next available index |
| Editor.AnnotationsEditor.SelectFrom | components/annotations/AnnotationsEditor.tsx:1734-1748 | with an existing collection: its tasks and name, and its topics and questions only when it has them; otherwise the id is reset to 0; then the traversal from task 0 |
| Editor.AnnotationsEditor.SelectCollectionByIndex | components/annotations/AnnotationsEditor.tsx:1734-1748 | the same, the traversal running over the lists as they were before loading |
| Editor.AnnotationsEditor.LoadEffect | components/annotations/AnnotationsEditor.tsx:1718-1723 | with stored collections and no tasks, the selected collection is loaded exactly as `selectCollectionByIndex` does it (tasks, name, topics and questions when present, or the id reset to 0) and the traversal over the earlier lists is run; otherwise nothing changes |
| Editor.AnnotationsEditor.AnnotationsEffect | components/annotations/AnnotationsEditor.tsx:1725-1732 | the answers shown are the current task's, or none |
| Editor.AnnotationsEditor.HandleNextQuestion | components/annotations/AnnotationsEditor.tsx:2039-2045 | the index is raised, then the traversal runs from task 0 at the old question |
| Editor.AnnotationsEditor.StoreAnswers | components/annotations/AnnotationsEditor.tsx:2052-2058 | the task gets the new answers, then the collection is updated |
| Editor.AnnotationsEditor.SaveAndNext | components/annotations/AnnotationsEditor.tsx:2047-2064 | crashes iff there is no current task; a found task is saved, the answers shown cleared, and the traversal run from the next task |
| Editor.AnnotationsEditor.SetQuestionAnswer | components/annotations/AnnotationsEditor.tsx:2013-2026 | the toggle, the next-question step at the last task, then the save and traversal, composed in source order |
| Editor.AnnotationsEditor.SetBulkQuestionAnswer | components/annotations/AnnotationsEditor.tsx:2028-2037 | the bulk draft gets the toggle |
| Editor.AnnotationsEditor.OpenBulkAnswers | components/annotations/AnnotationsEditor.tsx:2103-2107 | the chosen tasks are those touching the selection |
| Editor.AnnotationsEditor.CancelBulk | components/annotations/AnnotationsEditor.tsx:2109-2112 | no task is chosen |
| Editor.AnnotationsEditor.ApplyBulkAnswers | components/annotations/AnnotationsEditor.tsx:2114-2142 | tasks become the bulk application, the collection is updated, the draft and the choice are cleared |
| Editor.AnnotationsEditor.HandleCheckTopic | components/annotations/AnnotationsEditor.tsx:1910-1921 | the selection flips the topic and the first task is shown |
| Editor.AnnotationsEditor.ToggleSelection | components/annotations/AnnotationsEditor.tsx:2144-2152 | all or nothing is selected, and the task is picked from the list filtered before the change |
| Editor.AnnotationsEditor.OpenDeleteTopic | components/annotations/AnnotationsEditor.tsx:2091-2096 | the proposed tasks are computed |
| Editor.AnnotationsEditor.CancelDeleteTopics | components/annotations/AnnotationsEditor.tsx:2098-2101 | the delete-tasks option is cleared |
| Editor.AnnotationsEditor.ConfirmDeleteTopics | components/annotations/AnnotationsEditor.tsx:2154-2170 | the selected topics are dropped; the deleting branch filters the original tasks, the other stores rewritten tasks in the collection only; the selection is cleared |
| Editor.AnnotationsEditor.HandleDrop | components/annotations/AnnotationsEditor.tsx:2201-2212 | a drop moves the topic and updates the collection; a drop outside does nothing |
| Editor.AnnotationsEditor.SortTopicsBy | components/annotations/AnnotationsEditor.tsx:2214-2259 | topics become the stable sort by the chosen key and direction |
| Editor.AnnotationsEditor.HandleTopicChange | components/annotations/AnnotationsEditor.tsx:1903-1908 | the topic at the index is replaced and the collection updated |
| Editor.AnnotationsEditor.HandleTaskTopicUpdate | components/annotations/AnnotationsEditor.tsx:1786-1795 | topics become the update by id and the collection is updated |
| Editor.AnnotationsEditor.HandleTaskTopicChange | components/annotations/AnnotationsEditor.tsx:1771-1784 | the task with the current task's id gets the retagged sentence, and the collection is not touched |
| Editor.AnnotationsEditor.AutoFormat | components/annotations/AnnotationsEditor.tsx:1934-1941 | every topic gets its readable name |
| Editor.AnnotationsEditor.SaveQuestions | components/annotations/AnnotationsEditor.tsx:2172-2176 | the question list is stored and the collection updated |
| Editor.AnnotationsEditor.SaveQuestion | components/annotations/AnnotationsEditor.tsx:815-829 | the upsert is stored through `onQuestionsUpdate` |
| Editor.AnnotationsEditor.DropQuestion | components/annotations/AnnotationsEditor.tsx:804-813 | a drop moves the question and stores the list |
| Editor.AnnotationsEditor.HandleQuestionAction | components/annotations/AnnotationsEditor.tsx:2178-2199 | "deleteAnswers" clears the answers of the question in every task, "deleteQuestion" removes question i, and editing changes nothing here |
| Editor.AnnotationsEditor.HandleSaveCollection | components/annotations/AnnotationsEditor.tsx:1868-1872 | the working collection is appended (the spliced copy is discarded) |
| Editor.AnnotationsEditor.HandleDuplicateCollection | components/annotations/AnnotationsEditor.tsx:1874-1876 | the working collection is appended |
| Editor.AnnotationsEditor.HandleDeleteCollection | components/annotations/AnnotationsEditor.tsx:1878-1895 | the last collection clears tasks and topics but keeps questions; otherwise the selected one is removed and the first of the old list loaded |
| Editor.AnnotationsEditor.CreateCollectionFromMultiple | components/annotations/AnnotationsEditor.tsx:1797-1841 | on success the collection is appended and the id incremented; on error nothing changes |
| Editor.AnnotationsEditor.CreateCollectionFromCombined | components/annotations/AnnotationsEditor.tsx:1843-1866 | the same for the combined file |
| Editor.FormattedAll | components/annotations/AnnotationsEditor.tsx:1935-1938 | every topic under its readable name, position by position |
| Editor.FormattedAllIdempotent | components/annotations/AnnotationsEditor.tsx:1934-1941 | formatting all names twice is the same as once |
| Editor.FormatNames | components/annotations/AnnotationsEditor.tsx:1935-1938 | the loop yields every topic under its readable name |
| Editor.SavedIndex | components/annotations/AnnotationsEditor.tsx:2048-2051 | -1 iff there is no current task, its id is empty, or no task has that id; otherwise the first task with that id |
| Editor.CollectionNames | components/annotations/AnnotationsEditor.tsx:1802 | the collection names, position by position |
| Editor.UpdateCollectionSpec | components/annotations/AnnotationsEditor.tsx:1897-1901 | updating replaces the selected collection in range and appends past the end |

## Left out

- Rendering, styles, modals, popovers and the drag-and-drop wiring are not modelled. The flags that only open or close a modal (`showDeleteTopics`, `showBulkAnswers`, `showAddCol` and the like) are not state fields of the model.
- Persistence through local storage is not modelled: `collections` and `selectedCollectionId` are plain fields.
- Reading files (`processFile`), downloads and exports, notifications, scrolling and the `async`/`await` of the create functions are not modelled. The files are given already parsed.
- Editor.AnnotationsEditor.CreateCollectionFromMultiple: validated JSON is not decoded into editor records. The caller supplies the records the accepted files hold.
- Editor.AnnotationsEditor.CreateCollectionFromCombined: a missing combined file imports as `[]`, so the code builds a collection whose `tasks` is `undefined`. The method instead stores the records it is given.
- Random colours (`buildColor`, `autoColors`) are not modelled, because they need randomness.
- Progress percentages and `convertAnswerValue` are not modelled, because they rely on floating point and JavaScript coercions.
- Answer values are strings, integers, booleans or null. An answer written with an `undefined` value is not modelled.
- TopicNames.Numeric: JavaScript's `isNaN` is replaced by "digits only". Signs, decimals, exponents, hexadecimal, blanks and "Infinity" therefore count as text here.
- TopicNames.Upper: only ASCII letters are upper-cased.
- Topics.LooseNoTopic: the loose `== -1` recognises only the number -1 and the string "-1". Other spellings that JavaScript coerces to -1 are not recognised, and an `undefined` topic does not occur.
- TopicSort.KeyLt: for a mix of numeric and string ids, the order puts numbers before strings. JavaScript compares such a pair by coercion, so only lists with ids of one kind are faithful.
- TopicSort.SortKey: `count` is an integer (floating-point counts are not modelled).
- Import.LengthPositive: a string-valued `length` key of an object is not coerced; only a decimal numeral counts as positive.
- Import.LengthPositive: an object whose `length` is not a number but coerces to one (an array such as `[5]`, a boolean) is not coerced either. The code then reports "Invalid format", while the model reports "No file provided".
- Model.IdString: topic and sentence ids are integers or strings. A fractional id such as `1.5` cannot be written, so its `String(id)` ("1.5") is not modelled.
- TopicSort.TextLt: names and string ids are compared character by character on Dafny's `char`. JavaScript compares UTF-16 code units, which orders characters above U+FFFF differently against those from U+E000 to U+FFFF.
- Editor.AnnotationsEditor.HandleTaskTopicChange: the code mutates the sentence inside the shown task object, and that object is shared with the stored collection. This aliasing is not modelled; the model writes only the new task list. The shown task is also an element of `tasks`, so when task ids repeat the code's list gets the retag in two places: at the shown task's own position, through the shared object, and at the first task with that id. The model changes only the first task with that id.
- React's batching and re-render timing are not modelled. Each handler is one step over the state it read at its start.
- The layout and provider files (`MainLayout.tsx`, `PageLayout.tsx`, `pages/index.tsx`, `pages/_app.tsx`) are not part of this model.
