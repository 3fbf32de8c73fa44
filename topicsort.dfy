/**
 * `sortTopicsBy`: a stable sort of the topic list by the number of tasks using a
 * topic, by the stored count, by name or by id, ascending or descending.
 */
module TopicSort {
  import opened Common
  import opened Model
  import opened Lists

  /** What a comparator compares: a number or a text. */
  datatype Key = KNum(n: int) | KText(s: string)

  /** `<` on strings, character by character, a proper prefix first. */
  predicate TextLt(a: string, b: string) {
    if |a| == 0 then |b| > 0
    else if |b| == 0 then false
    else if a[0] != b[0] then a[0] < b[0]
    else TextLt(a[1..], b[1..])
  }

  /** Numbers compare as numbers, texts as texts; a number is put before a text. */
  predicate KeyLt(a: Key, b: Key) {
    match (a, b)
    case (KNum(x), KNum(y)) => x < y
    case (KText(x), KText(y)) => TextLt(x, y)
    case (KNum(_), KText(_)) => true
    case (KText(_), KNum(_)) => false
  }

  lemma {:induction false} TextLtIrreflexive(a: string)
    ensures !TextLt(a, a)
  {
    if |a| > 0 { TextLtIrreflexive(a[1..]); }
  }

  lemma {:induction false} TextLtTransitive(a: string, b: string, c: string)
    requires TextLt(a, b) && TextLt(b, c)
    ensures TextLt(a, c)
  {
    if |a| > 0 && |b| > 0 && |c| > 0 && a[0] == b[0] && b[0] == c[0] {
      TextLtTransitive(a[1..], b[1..], c[1..]);
    }
  }

  lemma {:induction false} TextLtTotal(a: string, b: string)
    ensures a == b || TextLt(a, b) || TextLt(b, a)
  {
    if |a| > 0 && |b| > 0 && a[0] == b[0] {
      TextLtTotal(a[1..], b[1..]);
      if a[1..] == b[1..] {
        assert a == [a[0]] + a[1..] && b == [b[0]] + b[1..];
      }
    }
  }

  /** The key order is a strict total order. */
  lemma KeyOrder(a: Key, b: Key, c: Key)
    ensures !KeyLt(a, a)
    ensures KeyLt(a, b) && KeyLt(b, c) ==> KeyLt(a, c)
    ensures a == b || KeyLt(a, b) || KeyLt(b, a)
  {
    if a.KText? { TextLtIrreflexive(a.s); }
    if a.KText? && b.KText? && c.KText? && KeyLt(a, b) && KeyLt(b, c) { TextLtTransitive(a.s, b.s, c.s); }
    if a.KText? && b.KText? { TextLtTotal(a.s, b.s); }
  }

  datatype SortBy = ByTasks | ByCount | ByName | ById

  /** The action, the direction, and the task list the "tasks" comparator counts in. */
  datatype Order = Order(action: SortBy, ascending: bool, tasks: seq<Task>)

  /** `task.sentences.some(s => s.topic === id)`: strict, so 1 and "1" are different topics. */
  predicate UsesTopic(t: Task, id: TopicId) {
    exists k :: 0 <= k < |t.sentences| && t.sentences[k].topic == id
  }

  function Using(id: TopicId): Task -> bool {
    (t: Task) => UsesTopic(t, id)
  }

  /** `tasks.filter(task => task.sentences.some(s => s.topic === id)).length` */
  function TasksUsing(tasks: seq<Task>, id: TopicId): (r: nat)
    ensures r <= |tasks|
  {
    if |tasks| == 0 then 0
    else (if UsesTopic(tasks[0], id) then 1 else 0) + TasksUsing(tasks[1..], id)
  }

  /** The count is the length of the list of tasks having a sentence whose topic is strictly `id`. */
  lemma {:induction false} TasksUsingCounts(tasks: seq<Task>, id: TopicId)
    ensures TasksUsing(tasks, id) == |Filter(tasks, Using(id))|
    ensures forall t :: t in Filter(tasks, Using(id)) <==> t in tasks && UsesTopic(t, id)
  {
    FilterMembers(tasks, Using(id));
    if |tasks| > 0 {
      TasksUsingCounts(tasks[1..], id);
      assert Using(id)(tasks[0]) == UsesTopic(tasks[0], id);
    }
  }

  function SortKey(t: Topic, o: Order): Key {
    match o.action
    case ByTasks => KNum(TasksUsing(o.tasks, t.id))
    case ByCount => KNum(t.count.GetOr(0))
    case ByName => KText(t.name)
    case ById => match t.id { case TNum(n) => KNum(n) case TStr(s) => KText(s) }
  }

  /** The comparator returns a negative number: `a` goes before `b`. */
  predicate Before(a: Topic, b: Topic, o: Order) {
    if o.ascending then KeyLt(SortKey(a, o), SortKey(b, o)) else KeyLt(SortKey(b, o), SortKey(a, o))
  }

  lemma BeforeOrder(a: Topic, b: Topic, c: Topic, o: Order)
    ensures !Before(a, a, o)
    ensures Before(a, b, o) && Before(b, c, o) ==> Before(a, c, o)
    ensures SortKey(a, o) == SortKey(b, o) || Before(a, b, o) || Before(b, a, o)
    ensures Before(a, b, o) ==> !Before(b, a, o) && SortKey(a, o) != SortKey(b, o)
  {
    KeyOrder(SortKey(a, o), SortKey(b, o), SortKey(c, o));
    KeyOrder(SortKey(c, o), SortKey(b, o), SortKey(a, o));
    KeyOrder(SortKey(a, o), SortKey(b, o), SortKey(a, o));
    KeyOrder(SortKey(b, o), SortKey(a, o), SortKey(b, o));
  }

  /** "Not before" is transitive: the comparator orders ties consistently. */
  lemma NotBeforeTransitive(a: Topic, b: Topic, c: Topic, o: Order)
    requires !Before(a, b, o) && !Before(b, c, o)
    ensures !Before(a, c, o)
  {
    var ka, kb, kc := SortKey(a, o), SortKey(b, o), SortKey(c, o);
    if o.ascending {
      KeyOrder(ka, kb, kc);
      KeyOrder(kb, ka, kc);
    } else {
      KeyOrder(kc, kb, ka);
      KeyOrder(kb, kc, ka);
      KeyOrder(kc, ka, kb);
    }
  }

  /** No topic is followed by one that should have gone before it. */
  predicate Sorted(l: seq<Topic>, o: Order) {
    forall i, j :: 0 <= i < j < |l| ==> !Before(l[j], l[i], o)
  }

  /** The topics of `l` whose key is `k`, in order. */
  function WithKey(l: seq<Topic>, o: Order, k: Key): seq<Topic> {
    if |l| == 0 then []
    else (if SortKey(l[0], o) == k then [l[0]] else []) + WithKey(l[1..], o, k)
  }

  /** Insert `x` before the first topic that does not go strictly before it. */
  function Insert(x: Topic, l: seq<Topic>, o: Order): (r: seq<Topic>)
    ensures multiset(r) == multiset(l) + multiset{x}
  {
    if |l| == 0 then [x]
    else if Before(l[0], x, o) then
      assert l == [l[0]] + l[1..];
      [l[0]] + Insert(x, l[1..], o)
    else [x] + l
  }

  function Sort(l: seq<Topic>, o: Order): (r: seq<Topic>)
    ensures multiset(r) == multiset(l)
  {
    if |l| == 0 then []
    else
      assert l == [l[0]] + l[1..];
      Insert(l[0], Sort(l[1..], o), o)
  }

  lemma {:induction false} InsertSorted(x: Topic, l: seq<Topic>, o: Order)
    requires Sorted(l, o)
    ensures Sorted(Insert(x, l, o), o)
  {
    var r := Insert(x, l, o);
    if |l| == 0 {
    } else if Before(l[0], x, o) {
      InsertSorted(x, l[1..], o);
      var rest := Insert(x, l[1..], o);
      forall j | 0 <= j < |rest| ensures !Before(rest[j], l[0], o) {
        assert rest[j] in multiset(rest);
        if rest[j] == x {
          BeforeOrder(l[0], x, x, o);
        } else {
          assert rest[j] in multiset(l[1..]);
          var m :| 0 <= m < |l[1..]| && l[1..][m] == rest[j];
          assert l[m + 1] == rest[j];
        }
      }
      assert r == [l[0]] + rest;
    } else {
      forall j | 0 <= j < |l| ensures !Before(l[j], x, o) {
        if j > 0 {
          NotBeforeTransitive(l[j], l[0], x, o);
        }
      }
    }
  }

  lemma {:induction false} InsertWithKey(x: Topic, l: seq<Topic>, o: Order, k: Key)
    ensures WithKey(Insert(x, l, o), o, k) ==
            (if SortKey(x, o) == k then [x] else []) + WithKey(l, o, k)
  {
    if |l| > 0 && Before(l[0], x, o) {
      BeforeOrder(l[0], x, x, o);
      InsertWithKey(x, l[1..], o, k);
      var rest := Insert(x, l[1..], o);
      assert ([l[0]] + rest)[0] == l[0] && ([l[0]] + rest)[1..] == rest;
      assert WithKey([l[0]] + rest, o, k) == (if SortKey(l[0], o) == k then [l[0]] else []) + WithKey(rest, o, k);
    } else if |l| > 0 {
      assert ([x] + l)[0] == x && ([x] + l)[1..] == l;
    }
  }

  /** The sorted list is ordered by the comparator. */
  lemma {:induction false} SortSorted(l: seq<Topic>, o: Order)
    ensures Sorted(Sort(l, o), o)
  {
    if |l| > 0 {
      SortSorted(l[1..], o);
      InsertSorted(l[0], Sort(l[1..], o), o);
    }
  }

  /** Topics the comparator ties keep their relative order. */
  lemma {:induction false} SortStable(l: seq<Topic>, o: Order, k: Key)
    ensures WithKey(Sort(l, o), o, k) == WithKey(l, o, k)
  {
    if |l| > 0 {
      SortStable(l[1..], o, k);
      InsertWithKey(l[0], Sort(l[1..], o), o, k);
    }
  }

  /** A list already in order is left as it is. */
  lemma {:induction false} SortKeepsSorted(l: seq<Topic>, o: Order)
    requires Sorted(l, o)
    ensures Sort(l, o) == l
  {
    if |l| > 0 {
      assert Sorted(l[1..], o);
      SortKeepsSorted(l[1..], o);
      if |l| > 1 {
        assert !Before(l[1], l[0], o);
      }
    }
  }
}
