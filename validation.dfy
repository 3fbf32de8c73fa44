/**
 * The shape checks an imported JSON file must pass before it becomes tasks,
 * topics or questions (components/annotations/AnnotationsEditor.tsx).
 * `Object.keys(null)` throws a TypeError, so a check has three outcomes.
 */
module Validation {
  import opened Common
  import opened Json

  datatype Verdict = Accept | Reject | Throw

  function Bool(b: bool): Verdict {
    if b then Accept else Reject
  }

  /** `items.every(check)`: the first item that is not accepted decides the verdict. */
  function Every(items: seq<Json>, check: Json -> Verdict): Verdict {
    if |items| == 0 then Accept
    else if check(items[0]) != Accept then check(items[0])
    else Every(items[1..], check)
  }

  lemma {:induction false} EveryAccepts(items: seq<Json>, check: Json -> Verdict)
    ensures Every(items, check) == Accept <==> forall i :: 0 <= i < |items| ==> check(items[i]) == Accept
  {
    if |items| > 0 {
      EveryAccepts(items[1..], check);
      assert forall i :: 1 <= i < |items| ==> items[i] == items[1..][i - 1];
    }
  }

  /** A check that is not passed names the first item that did not pass. */
  lemma {:induction false} EveryFirstFailure(items: seq<Json>, check: Json -> Verdict)
    requires Every(items, check) != Accept
    ensures exists i :: 0 <= i < |items| && check(items[i]) == Every(items, check) &&
                        forall k :: 0 <= k < i ==> check(items[k]) == Accept
  {
    if check(items[0]) == Accept {
      EveryFirstFailure(items[1..], check);
      var j :| 0 <= j < |items[1..]| && check(items[1..][j]) == Every(items[1..], check) &&
               forall k :: 0 <= k < j ==> check(items[1..][k]) == Accept;
      assert forall k :: 1 <= k < j + 1 ==> items[k] == items[1..][k - 1];
      assert check(items[j + 1]) == Every(items, check);
    } else {
      assert check(items[0]) == Every(items, check);
    }
  }

  // The item checks. `ek.length > 0` is implied by any `ek.includes(..)`; an array
  // or a string only has index keys, and numbers and booleans have none.

  function IsValidSentence(e: Json): Verdict {
    if e.JNull? then Throw else Bool(HasKey(e, "text") && HasKey(e, "topic"))
  }

  function IsValidTask(e: Json): Verdict {
    if e.JNull? then Throw
    else if !(HasKey(e, "id") && HasKey(e, "sentences") && e.fields["sentences"].JArray?) then Reject
    else
      var v := Every(e.fields["sentences"].items, IsValidSentence);
      if v != Accept then v else Bool(HasKey(e, "title"))
  }

  function IsValidTopic(e: Json): Verdict {
    if e.JNull? then Throw else Bool(HasKey(e, "name"))
  }

  function IsValidAnswer(e: Json): Verdict {
    if e.JNull? then Throw else Bool(HasStringKey(e, "label"))
  }

  function IsRelevancyOrTest(e: Json): Verdict {
    if e.JNull? then Throw else Bool(HasStringKey(e, "prop"))
  }

  /** `!!e && Array.isArray(e) && e.every(isRelevancyOrTest)`: a null block is rejected, not thrown on. */
  function IsRelevancyAndTests(e: Json): Verdict {
    if !Truthy(e) || !e.JArray? then Reject else Every(e.items, IsRelevancyOrTest)
  }

  function IsValidQuestion(e: Json): Verdict {
    if e.JNull? then Throw
    else if !(HasStringKey(e, "text") && HasStringKey(e, "prop") &&
              HasKey(e, "answers") && e.fields["answers"].JArray?) then Reject
    else
      var a := Every(e.fields["answers"].items, IsValidAnswer);
      if a != Accept then a
      else match Prop(e, "relevancy")
        case None => Accept
        case Some(r) =>
          // `!e.relevancy ||`: a falsy relevancy counts as absent
          if !Truthy(r) then Accept
          else if !r.JArray? then Reject
          else Every(r.items, IsRelevancyAndTests)
  }

  /** `e && Array.isArray(e) && e.length > 0 && e.every(check)`; None is `undefined`. */
  function IsValidList(e: Option<Json>, check: Json -> Verdict): Verdict {
    if e.None? || !e.value.JArray? || |e.value.items| == 0 then Reject
    else Every(e.value.items, check)
  }

  function IsValidTasks(e: Option<Json>): Verdict { IsValidList(e, IsValidTask) }
  function IsValidTopics(e: Option<Json>): Verdict { IsValidList(e, IsValidTopic) }
  function IsValidQuestions(e: Option<Json>): Verdict { IsValidList(e, IsValidQuestion) }

  /** `isValidData`: `e.tasks` on null throws; then tasks, topics and questions in this order. */
  function IsValidData(e: Json): Verdict {
    if e.JNull? then Throw
    else
      var t := IsValidTasks(Prop(e, "tasks"));
      if t != Accept then t
      else
        var p := IsValidTopics(Prop(e, "topics"));
        if p != Accept then p else IsValidQuestions(Prop(e, "questions"))
  }

  // ----- What the checks accept -----

  /** A list check rejects a missing value, a non-array and an empty array, and otherwise accepts exactly when every item does. */
  lemma ValidListIff(e: Option<Json>, check: Json -> Verdict)
    ensures IsValidList(e, check) == Accept <==>
      e.Some? && e.value.JArray? && |e.value.items| > 0 &&
      forall i :: 0 <= i < |e.value.items| ==> check(e.value.items[i]) == Accept
  {
    if e.Some? && e.value.JArray? {
      EveryAccepts(e.value.items, check);
    }
  }

  predicate SentenceShape(e: Json) {
    HasKey(e, "text") && HasKey(e, "topic")
  }

  /** A task needs `id`, `title` and an array `sentences` whose items all carry `text` and `topic`; no sentence at all is fine. */
  lemma ValidTaskIff(e: Json)
    ensures IsValidTask(e) == Accept <==>
      HasKey(e, "id") && HasKey(e, "title") && HasKey(e, "sentences") && e.fields["sentences"].JArray? &&
      forall i :: 0 <= i < |e.fields["sentences"].items| ==> SentenceShape(e.fields["sentences"].items[i])
  {
    if HasKey(e, "sentences") && e.fields["sentences"].JArray? {
      var ss := e.fields["sentences"].items;
      EveryAccepts(ss, IsValidSentence);
      assert (forall i :: 0 <= i < |ss| ==> IsValidSentence(ss[i]) == Accept) <==>
             (forall i :: 0 <= i < |ss| ==> SentenceShape(ss[i]));
    }
  }

  predicate AnswerShape(e: Json) { HasStringKey(e, "label") }
  predicate OrTestShape(e: Json) { HasStringKey(e, "prop") }

  /** Every block is an array whose tests are objects with a string `prop`. */
  predicate RelevancyShape(blocks: seq<Json>) {
    forall i :: 0 <= i < |blocks| ==>
      blocks[i].JArray? &&
      forall j :: 0 <= j < |blocks[i].items| ==> OrTestShape(blocks[i].items[j])
  }

  lemma AndTestsIff(b: Json)
    ensures IsRelevancyAndTests(b) == Accept <==>
      b.JArray? && forall j :: 0 <= j < |b.items| ==> OrTestShape(b.items[j])
  {
    if b.JArray? {
      EveryAccepts(b.items, IsRelevancyOrTest);
      assert (forall j :: 0 <= j < |b.items| ==> IsRelevancyOrTest(b.items[j]) == Accept) <==>
             (forall j :: 0 <= j < |b.items| ==> OrTestShape(b.items[j]));
    }
  }

  /**
   * A question needs string `text` and `prop`, an array `answers` whose items have a
   * string `label`, and a `relevancy` that is absent, falsy, or an array of arrays of
   * tests with a string `prop`.
   */
  lemma ValidQuestionIff(e: Json)
    ensures IsValidQuestion(e) == Accept <==>
      HasStringKey(e, "text") && HasStringKey(e, "prop") &&
      HasKey(e, "answers") && e.fields["answers"].JArray? &&
      (forall i :: 0 <= i < |e.fields["answers"].items| ==> AnswerShape(e.fields["answers"].items[i])) &&
      (HasKey(e, "relevancy") && Truthy(e.fields["relevancy"]) ==>
         e.fields["relevancy"].JArray? && RelevancyShape(e.fields["relevancy"].items))
  {
    if HasStringKey(e, "text") && HasStringKey(e, "prop") && HasKey(e, "answers") && e.fields["answers"].JArray? {
      var ans := e.fields["answers"].items;
      EveryAccepts(ans, IsValidAnswer);
      assert (forall i :: 0 <= i < |ans| ==> IsValidAnswer(ans[i]) == Accept) <==>
             (forall i :: 0 <= i < |ans| ==> AnswerShape(ans[i]));
      if HasKey(e, "relevancy") && Truthy(e.fields["relevancy"]) && e.fields["relevancy"].JArray? {
        var bs := e.fields["relevancy"].items;
        EveryAccepts(bs, IsRelevancyAndTests);
        forall i | 0 <= i < |bs| {
          AndTestsIff(bs[i]);
        }
        assert (forall i :: 0 <= i < |bs| ==> IsRelevancyAndTests(bs[i]) == Accept) <==> RelevancyShape(bs);
      }
    }
  }

  /** The combined-file check needs all three lists, each a valid non-empty array. */
  lemma ValidDataIff(e: Json)
    ensures IsValidData(e) == Accept <==>
      IsValidTasks(Prop(e, "tasks")) == Accept &&
      IsValidTopics(Prop(e, "topics")) == Accept &&
      IsValidQuestions(Prop(e, "questions")) == Accept
  {
  }

  /** A topics list throws exactly when a null item comes before any item lacking `name`. */
  lemma {:induction false} TopicsThrowIff(items: seq<Json>)
    ensures Every(items, IsValidTopic) == Throw <==>
      exists i :: 0 <= i < |items| && items[i] == JNull &&
                  forall k :: 0 <= k < i ==> HasKey(items[k], "name")
  {
    if |items| > 0 {
      TopicsThrowIff(items[1..]);
      if items[0] != JNull && HasKey(items[0], "name") {
        if Every(items, IsValidTopic) == Throw {
          var j :| 0 <= j < |items[1..]| && items[1..][j] == JNull &&
                   forall k :: 0 <= k < j ==> HasKey(items[1..][k], "name");
          assert forall k :: 1 <= k < j + 1 ==> items[k] == items[1..][k - 1];
          assert items[j + 1] == JNull;
        }
        if exists i :: 0 <= i < |items| && items[i] == JNull &&
                       forall k :: 0 <= k < i ==> HasKey(items[k], "name") {
          var i :| 0 <= i < |items| && items[i] == JNull &&
                   forall k :: 0 <= k < i ==> HasKey(items[k], "name");
          assert i > 0;
          assert items[1..][i - 1] == JNull;
          assert forall k :: 0 <= k < i - 1 ==> items[1..][k] == items[k + 1];
        }
      }
    }
  }
}
