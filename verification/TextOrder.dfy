/** The default string order of JavaScript, by UTF-16 code units, and sorting by it. */
module TextOrder {
  import opened Utf16

  predicate Less(a: Text, b: Text) {
    b != [] && (a == [] || a[0] < b[0] || (a[0] == b[0] && Less(a[1..], b[1..])))
  }

  lemma {:induction false} LessTrans(a: Text, b: Text, c: Text)
    requires Less(a, b) && Less(b, c)
    ensures Less(a, c)
  {
    if a != [] && a[0] == b[0] && b[0] == c[0] {
      LessTrans(a[1..], b[1..], c[1..]);
    }
  }

  lemma {:induction false} LessTotal(a: Text, b: Text)
    ensures (a == b) != (Less(a, b) || Less(b, a))
    ensures !(Less(a, b) && Less(b, a))
    decreases |a|
  {
    if a != [] && b != [] && a[0] == b[0] {
      LessTotal(a[1..], b[1..]);
      assert a == [a[0]] + a[1..] && b == [b[0]] + b[1..];
    }
  }

  /** A property of a JavaScript object and its formatted value. */
  datatype Bind = Bind(name: Text, val: Text)

  ghost predicate StrictlySorted(names: seq<Text>) {
    forall i, j | 0 <= i < j < |names| :: Less(names[i], names[j])
  }

  function NamesOf(binds: seq<Bind>): (r: seq<Text>)
    ensures |r| == |binds| && forall i | 0 <= i < |binds| :: r[i] == binds[i].name
  {
    seq(|binds|, i requires 0 <= i < |binds| => binds[i].name)
  }

  ghost predicate DistinctNames(binds: seq<Bind>) {
    forall i, j | 0 <= i < j < |binds| :: binds[i].name != binds[j].name
  }

  function Insert(sorted: seq<Bind>, b: Bind): (r: seq<Bind>)
    ensures |r| == |sorted| + 1
    ensures forall x :: x in r <==> x in sorted || x == b
  {
    if sorted == [] then [b]
    else if Less(b.name, sorted[0].name) then [b] + sorted
    else [sorted[0]] + Insert(sorted[1..], b)
  }

  function Sort(binds: seq<Bind>): (r: seq<Bind>)
    ensures |r| == |binds|
    ensures forall x :: x in r <==> x in binds
  {
    if binds == [] then [] else Insert(Sort(binds[1..]), binds[0])
  }

  lemma ConsSorted(x: Text, t: seq<Text>)
    requires StrictlySorted(t) && forall y | y in t :: Less(x, y)
    ensures StrictlySorted([x] + t)
  {
    hide Less;
  }

  lemma FirstIsLeast(a: seq<Text>)
    requires StrictlySorted(a) && a != []
    ensures forall x | x in a[1..] :: x != a[0] && Less(a[0], x)
    ensures forall x :: x in a <==> x == a[0] || x in a[1..]
    ensures StrictlySorted(a[1..])
  {
    hide Less;
    forall x | x in a[1..]
      ensures x != a[0] && Less(a[0], x)
    {
      var k :| 0 <= k < |a[1..]| && a[1..][k] == x;
      assert Less(a[0], a[k + 1]);
      LessTotal(a[0], x);
    }
    assert a == [a[0]] + a[1..];
  }

  lemma {:induction false} InsertSorts(sorted: seq<Bind>, b: Bind)
    requires StrictlySorted(NamesOf(sorted)) && forall x | x in sorted :: x.name != b.name
    ensures StrictlySorted(NamesOf(Insert(sorted, b)))
    decreases |sorted|
  {
    hide Less, StrictlySorted;
    if sorted == [] {
      OneSorted(b.name);
      assert NamesOf(Insert(sorted, b)) == [b.name];
    } else {
      var s := NamesOf(sorted);
      assert s == [sorted[0].name] + NamesOf(sorted[1..]) && s[1..] == NamesOf(sorted[1..]);
      FirstIsLeast(s);
      LessTotal(b.name, s[0]);
      assert sorted[0] in sorted;
      if Less(b.name, s[0]) {
        forall y | y in s
          ensures Less(b.name, y)
        {
          if y != s[0] {
            LessTrans(b.name, s[0], y);
          }
        }
        ConsSorted(b.name, s);
        assert NamesOf(Insert(sorted, b)) == [b.name] + s;
      } else {
        var tail := Insert(sorted[1..], b);
        InsertSorts(sorted[1..], b);
        NamesIn(tail);
        NamesIn(sorted[1..]);
        ConsSorted(s[0], NamesOf(tail));
        assert NamesOf(Insert(sorted, b)) == [s[0]] + NamesOf(tail);
      }
    }
  }

  lemma OneSorted(x: Text)
    ensures StrictlySorted([x])
  {
  }

  lemma NamesIn(binds: seq<Bind>)
    ensures forall t :: t in NamesOf(binds) <==> exists b :: b in binds && b.name == t
  {
    forall t
      ensures t in NamesOf(binds) <==> exists b :: b in binds && b.name == t
    {
      if t in NamesOf(binds) {
        var i :| 0 <= i < |binds| && NamesOf(binds)[i] == t;
        assert binds[i] in binds;
      }
      if b :| b in binds && b.name == t {
        var i :| 0 <= i < |binds| && binds[i] == b;
        assert NamesOf(binds)[i] == t;
      }
    }
  }

  lemma {:induction false} SortSorts(binds: seq<Bind>)
    requires DistinctNames(binds)
    ensures StrictlySorted(NamesOf(Sort(binds)))
  {
    if binds != [] {
      SortSorts(binds[1..]);
      InsertSorts(Sort(binds[1..]), binds[0]);
    }
  }

  lemma NoElements(b: seq<Text>)
    ensures (forall x :: x !in b) ==> b == []
  {
    if b != [] {
      assert b[0] in b;
    }
  }

  /** A strictly sorted list is determined by its elements. */
  lemma {:induction false} SortedUnique(a: seq<Text>, b: seq<Text>)
    requires StrictlySorted(a) && StrictlySorted(b) && forall x :: x in a <==> x in b
    ensures a == b
    decreases |a|
  {
    hide Less, StrictlySorted;
    if a == [] {
      NoElements(b);
    } else {
      assert a[0] in a && a[0] in b && b[0] in a;
      FirstIsLeast(a);
      FirstIsLeast(b);
      LessTotal(a[0], b[0]);
      SortedUnique(a[1..], b[1..]);
      assert a == [a[0]] + a[1..] && b == [b[0]] + b[1..];
    }
  }
}
