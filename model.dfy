/**
 * The records the annotation editor works on: collections of tasks (documents made of
 * topic-tagged sentences), topics and questions whose answers are stored in each
 * task's `annotations` under the question's `prop`.
 */
module Model {
  import opened Common

  /** An annotation value; `undefined` is the absence of a key. */
  datatype Value = VStr(s: string) | VInt(i: int) | VBool(b: bool) | VNull

  type Annotations = map<string, Value>

  /** A topic id is a number or a string; the sentinel -1 means "no topic". */
  datatype TopicId = TNum(n: int) | TStr(s: string)

  const NoTopic: TopicId := TNum(-1)

  datatype Sentence = Sentence(text: string, topic: TopicId)

  datatype Topic = Topic(name: string, id: TopicId, color: string, count: Option<int>)

  datatype Task = Task(id: string, title: string, sentences: seq<Sentence>, annotations: Option<Annotations>)

  /** `caption` is the answer's `label` (a reserved word in Dafny). */
  datatype Answer = Answer(caption: string, value: Option<Value>)

  /** One OR-alternative of a relevancy block; a missing `value` is `undefined`. */
  datatype RelevancyTest = RelevancyTest(prop: string, value: Option<Value>)

  /** AND over the outer list, OR inside each block. */
  type Relevancy = seq<seq<RelevancyTest>>

  datatype Question = Question(text: string, prop: string, answers: seq<Answer>,
                               relevancy: Option<Relevancy>, relevantTopics: Option<seq<string>>)

  datatype Collection = Collection(name: string, tasks: seq<Task>,
                                   topics: Option<seq<Topic>>, questions: Option<seq<Question>>)

  function Digit(d: nat): char
    requires d < 10
  {
    ('0' as int + d) as char
  }

  /** `String(n)` for a natural number: its decimal numeral, without leading zeros. */
  function NatToString(n: nat): (r: string)
    ensures |r| > 0 && forall i :: 0 <= i < |r| ==> '0' <= r[i] <= '9'
    ensures (r[0] == '0') <==> n == 0
  {
    if n < 10 then [Digit(n)] else NatToString(n / 10) + [Digit(n % 10)]
  }

  /** The number a string of decimal digits denotes, most significant digit first. */
  function DecimalValue(s: string): nat
    requires forall i :: 0 <= i < |s| ==> '0' <= s[i] <= '9'
  {
    if |s| == 0 then 0 else DecimalValue(s[..|s| - 1]) * 10 + (s[|s| - 1] as int - '0' as int)
  }

  /** Reading back the numeral gives the number: `Number(String(n)) == n`. */
  lemma {:induction false} NatToStringDecimal(n: nat)
    ensures DecimalValue(NatToString(n)) == n
  {
    if n >= 10 {
      var p := NatToString(n / 10);
      assert (p + [Digit(n % 10)])[..|p|] == p;
      NatToStringDecimal(n / 10);
    }
  }

  /** Different numbers print differently. */
  lemma NatToStringInjective(a: nat, b: nat)
    ensures NatToString(a) == NatToString(b) ==> a == b
  {
    NatToStringDecimal(a);
    NatToStringDecimal(b);
  }

  /** `String(id)`: numbers in decimal, strings as they are. */
  function IdString(id: TopicId): string {
    match id
    case TNum(n) => if n < 0 then "-" + NatToString(-n) else NatToString(n)
    case TStr(s) => s
  }

  /** Two numeric ids print alike only when they are the same number. */
  lemma NumIdStringInjective(a: int, b: int)
    ensures IdString(TNum(a)) == IdString(TNum(b)) ==> a == b
  {
    if IdString(TNum(a)) == IdString(TNum(b)) {
      if a < 0 && b < 0 {
        assert ("-" + NatToString(-a))[1..] == NatToString(-a);
        assert ("-" + NatToString(-b))[1..] == NatToString(-b);
        NatToStringInjective(-a, -b);
      } else if a >= 0 && b >= 0 {
        NatToStringInjective(a, b);
      }
    }
  }

  /** A numeric id and a string id print the same, although they are not `===`. */
  lemma SameStringDifferentIds()
    ensures IdString(TNum(1)) == IdString(TStr("1")) && TNum(1) != TStr("1")
  {
  }
}
