/**
 * Topic names made readable (`autoFormat`): split a raw name on underscores, drop
 * empty and numeric pieces, capitalize the first letter of each remaining piece and
 * join the pieces with spaces.
 */
module TopicNames {

  /** `toUpperCase` on one character; only ASCII letters are modelled. */
  function Upper(c: char): (r: char)
    ensures r != '_' <==> c != '_'
    ensures 'A' <= r <= 'Z' ==> r == c || 'a' <= c <= 'z'
    ensures !('a' <= r <= 'z')  || r == c
    ensures ('0' <= r <= '9') <==> ('0' <= c <= '9')
    ensures 'a' <= c <= 'z' ==> 'A' <= r <= 'Z' && r as int - 'A' as int == c as int - 'a' as int
    ensures !('a' <= c <= 'z') ==> r == c
  {
    if 'a' <= c <= 'z' then (c as int - 32) as char else c
  }

  lemma UpperIdempotent(c: char)
    ensures Upper(Upper(c)) == Upper(c)
  {
  }

  /** `capitalizeFirstLetter`: the first character upper-cased, the rest as it is. */
  function Capitalize(s: string): (r: string)
    ensures |r| == |s|
    ensures |s| > 0 ==> r[0] == Upper(s[0]) && r[1..] == s[1..]
  {
    if |s| == 0 then "" else [Upper(s[0])] + s[1..]
  }

  /** `s.split("_")`: at least one piece, none containing the separator. */
  function Split(s: string): (r: seq<string>)
    ensures |r| > 0
    ensures forall i :: 0 <= i < |r| ==> '_' !in r[i]
  {
    if |s| == 0 then [""]
    else if s[0] == '_' then [""] + Split(s[1..])
    else
      var rest := Split(s[1..]);
      [[s[0]] + rest[0]] + rest[1..]
  }

  /** `pieces.join(sep)` */
  function Join(pieces: seq<string>, sep: string): string {
    if |pieces| == 0 then ""
    else if |pieces| == 1 then pieces[0]
    else pieces[0] + sep + Join(pieces[1..], sep)
  }

  /** Joining the pieces of a split with the separator gives the name back. */
  lemma {:induction false} SplitJoin(s: string)
    ensures Join(Split(s), "_") == s
  {
    if |s| > 0 {
      SplitJoin(s[1..]);
      var rest := Split(s[1..]);
      if s[0] != '_' {
        if |rest| > 1 {
          assert ([[s[0]] + rest[0]] + rest[1..])[1..] == rest[1..];
          assert Join(rest, "_") == rest[0] + "_" + Join(rest[1..], "_");
        }
      }
    }
    else {
      assert Join([""], "_") == "";
    }
  }

  /** The piece before the first underscore comes off first. */
  lemma {:induction false} SplitAtSeparator(a: string, b: string)
    requires '_' !in a
    ensures Split(a + "_" + b) == [a] + Split(b)
  {
    if |a| > 0 {
      assert (a + "_" + b)[1..] == a[1..] + "_" + b;
      assert '_' !in a[1..] by {
        forall k | 0 <= k < |a[1..]| ensures a[1..][k] != '_' { assert a[1..][k] == a[k + 1]; }
      }
      SplitAtSeparator(a[1..], b);
      assert [a[0]] + a[1..] == a;
    } else {
      assert a + "_" + b == "_" + b;
    }
  }

  /** A name without underscores splits into itself alone. */
  lemma {:induction false} SplitNoSeparator(s: string)
    requires '_' !in s
    ensures Split(s) == [s]
  {
    if |s| > 0 {
      assert '_' !in s[1..] by {
        forall k | 0 <= k < |s[1..]| ensures s[1..][k] != '_' { assert s[1..][k] == s[k + 1]; }
      }
      SplitNoSeparator(s[1..]);
      assert [s[0]] + s[1..] == s;
    }
  }

  /** The stated stand-in for JavaScript's `!isNaN(piece)`: a piece written only with digits. */
  predicate Numeric(t: string) {
    |t| > 0 && forall i :: 0 <= i < |t| ==> '0' <= t[i] <= '9'
  }

  /** `t && isNaN(t)`: the pieces kept. */
  predicate Kept(t: string) {
    t != "" && !Numeric(t)
  }

  /** The pieces the loop pushes, in order. */
  function Words(pieces: seq<string>): seq<string> {
    if |pieces| == 0 then []
    else
      var last := pieces[|pieces| - 1];
      Words(pieces[..|pieces| - 1]) + (if Kept(last) then [Capitalize(last)] else [])
  }

  /** The readable name of a raw topic name. */
  function TopicName(s: string): string {
    Join(Words(Split(s)), " ")
  }

  /** `buildTopicName`: the push loop over the pieces of the split, then the join. */
  method BuildTopicName(s: string) returns (r: string)
    ensures r == TopicName(s)
  {
    var pieces := Split(s);
    var o: seq<string> := [];
    var i := 0;
    while i < |pieces|
      invariant 0 <= i <= |pieces|
      invariant o == Words(pieces[..i])
    {
      var t := pieces[i];
      assert pieces[..i + 1][..i] == pieces[..i];
      if t != "" && !Numeric(t) {
        o := o + [Capitalize(t)];
      }
      i := i + 1;
    }
    assert pieces[..i] == pieces;
    r := Join(o, " ");
  }

  /** Every pushed piece is non-empty, not numeric, free of underscores and already capitalized. */
  predicate GoodWord(w: string) {
    Kept(w) && '_' !in w && Capitalize(w) == w
  }

  lemma {:induction false} WordsGood(pieces: seq<string>)
    requires forall i :: 0 <= i < |pieces| ==> '_' !in pieces[i]
    ensures forall i :: 0 <= i < |Words(pieces)| ==> GoodWord(Words(pieces)[i])
  {
    if |pieces| > 0 {
      var last := pieces[|pieces| - 1];
      WordsGood(pieces[..|pieces| - 1]);
      if Kept(last) {
        var w := Capitalize(last);
        assert '_' !in w by {
          forall k | 0 <= k < |w| ensures w[k] != '_' {
            if k > 0 { assert w[k] == last[k]; }
          }
        }
        assert !Numeric(w) by {
          var k :| 0 <= k < |last| && !('0' <= last[k] <= '9');
          if k > 0 { assert w[k] == last[k]; }
        }
        assert Capitalize(w) == w by {
          UpperIdempotent(last[0]);
          assert w == [w[0]] + w[1..];
        }
      }
    }
  }

  lemma {:induction false} JoinNoUnderscore(ws: seq<string>)
    requires forall i :: 0 <= i < |ws| ==> '_' !in ws[i]
    ensures '_' !in Join(ws, " ")
  {
    if |ws| > 1 {
      JoinNoUnderscore(ws[1..]);
    }
  }

  lemma {:induction false} JoinStartsWithFirst(ws: seq<string>, sep: string)
    requires |ws| > 0
    ensures |Join(ws, sep)| >= |ws[0]| && Join(ws, sep)[..|ws[0]|] == ws[0]
  {
  }

  /** A readable name holds no underscore. */
  lemma TopicNameNoUnderscore(s: string)
    ensures '_' !in TopicName(s)
  {
    var ws := Words(Split(s));
    WordsGood(Split(s));
    JoinNoUnderscore(ws);
  }

  /** Formatting a formatted name changes nothing. */
  lemma TopicNameIdempotent(s: string)
    ensures TopicName(TopicName(s)) == TopicName(s)
  {
    var ws := Words(Split(s));
    var r := TopicName(s);
    TopicNameNoUnderscore(s);
    SplitNoSeparator(r);
    assert Split(r) == [r];
    var none: seq<string> := [];
    assert [r][..0] == none;
    if |ws| == 0 {
      assert r == "";
      assert !Kept(r);
    } else {
      WordsGood(Split(s));
      var w := ws[0];
      assert GoodWord(w);
      JoinStartsWithFirst(ws, " ");
      assert r[..|w|] == w;
      assert !Numeric(r) by {
        var k :| 0 <= k < |w| && !('0' <= w[k] <= '9');
        assert r[k] == w[k];
      }
      assert r[0] == w[0];
      assert Capitalize(r) == r by {
        assert Upper(w[0]) == w[0] by {
          assert Capitalize(w)[0] == Upper(w[0]);
        }
        assert r == [r[0]] + r[1..];
      }
      assert Kept(r);
      assert Words([r]) == [Capitalize(r)];
    }
  }

  lemma SplitExample()
    ensures Split("foo_bar_2") == ["foo", "bar", "2"]
  {
    assert "foo_bar_2" == "foo" + "_" + ("bar" + "_" + "2");
    SplitAtSeparator("foo", "bar" + "_" + "2");
    SplitAtSeparator("bar", "2");
    SplitNoSeparator("2");
  }

  lemma WordsExample()
    ensures Words(["foo", "bar", "2"]) == ["Foo", "Bar"]
  {
    assert Capitalize("foo") == "Foo" && Capitalize("bar") == "Bar";
    assert Kept("foo") by { assert !('0' <= "foo"[0] <= '9'); }
    assert Kept("bar") by { assert !('0' <= "bar"[0] <= '9'); }
    assert !Kept("2") by { assert Numeric("2"); }
    assert ["foo", "bar", "2"][..2] == ["foo", "bar"];
    assert ["foo", "bar"][..1] == ["foo"];
    assert ["foo"][..0] == [];
  }

  /** "foo_bar_2" becomes "Foo Bar". */
  lemma TopicNameExample()
    ensures TopicName("foo_bar_2") == "Foo Bar"
  {
    SplitExample();
    WordsExample();
  }
}
