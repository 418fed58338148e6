/** The persisted intent file and the two edits made to its list of breaks. */
module IntentFile {
  import opened Wrappers
  import opened Utf16

  /** An element of the JSON list: a string, or something that is not one. */
  datatype Entry = Str(raw: Text) | NotAString(tag: nat)

  /** The parsed file: its list of breaks and everything else it holds. */
  datatype Intent = Intent(breaks: seq<Entry>, others: map<Text, Text>)

  /** What reading the path gives; Unusable is unparsable JSON, or no list of breaks. */
  datatype File = Missing | Unusable | Whole(intent: Intent)

  datatype Edit = Append(raws: seq<Text>) | Drop(raws: seq<Text>)

  function Appended(list: seq<Entry>, raws: seq<Text>): seq<Entry>
    decreases |raws|
  {
    if raws == [] then list
    else
      var l := Appended(list, raws[..|raws| - 1]);
      var e := Str(raws[|raws| - 1]);
      if e in l then l else l + [e]
  }

  function Retain(list: seq<Entry>, raw: Text): seq<Entry> {
    if list == [] then []
    else if list[0] == Str(raw) then Retain(list[1..], raw)
    else [list[0]] + Retain(list[1..], raw)
  }

  function Stripped(list: seq<Entry>, raws: seq<Text>): seq<Entry>
    decreases |raws|
  {
    if raws == [] then list else Retain(Stripped(list, raws[..|raws| - 1]), raws[|raws| - 1])
  }

  function Apply(intent: Intent, e: Edit): Intent {
    match e
    case Append(raws) => intent.(breaks := Appended(intent.breaks, raws))
    case Drop(raws) => intent.(breaks := Stripped(intent.breaks, raws))
  }

  // ---- the edits in place ----

  method AppendInPlace(list: seq<Entry>, raws: seq<Text>) returns (r: seq<Entry>)
    ensures r == Appended(list, raws)
  {
    r := list;
    for n := 0 to |raws|
      invariant r == Appended(list, raws[..n])
    {
      assert raws[..n + 1][..n] == raws[..n];
      if Str(raws[n]) !in r {
        r := r + [Str(raws[n])];
      }
    }
    assert raws[..|raws|] == raws;
  }

  method DropInPlace(list: seq<Entry>, raws: seq<Text>) returns (r: seq<Entry>)
    ensures r == Stripped(list, raws)
  {
    r := list;
    for n := 0 to |raws|
      invariant r == Stripped(list, raws[..n])
    {
      assert raws[..n + 1][..n] == raws[..n];
      r := RetainOthers(r, raws[n]);
    }
    assert raws[..|raws|] == raws;
  }

  method RetainOthers(list: seq<Entry>, raw: Text) returns (r: seq<Entry>)
    ensures r == Retain(list, raw)
  {
    r := [];
    for n := 0 to |list|
      invariant r + Retain(list[n..], raw) == Retain(list, raw)
    {
      assert list[n..][1..] == list[n + 1..];
      if list[n] != Str(raw) {
        r := r + [list[n]];
      }
    }
  }

  // ---- what the edits mean ----

  function Count(list: seq<Entry>, e: Entry): nat {
    multiset(list)[e]
  }

  predicate Named(raws: seq<Text>, e: Entry) {
    e.Str? && e.raw in raws
  }

  /** Appending keeps the list as a prefix and adds only missing raws, each once. */
  lemma {:induction false} AppendMeans(list: seq<Entry>, raws: seq<Text>)
    ensures var r := Appended(list, raws);
            && list <= r
            && (forall e :: e in r <==> e in list || Named(raws, e))
            && (forall e :: Count(r, e) == if e in list then Count(list, e) else if Named(raws, e) then 1 else 0)
    decreases |raws|
  {
    if raws != [] {
      var n := |raws| - 1;
      AppendMeans(list, raws[..n]);
      assert raws == raws[..n] + [raws[n]];
      AppendOne(Appended(list, raws[..n]), Str(raws[n]));
    }
  }

  lemma AppendOne(list: seq<Entry>, last: Entry)
    ensures forall e :: e in list + [last] <==> e in list || e == last
    ensures forall e :: Count(list + [last], e) == Count(list, e) + if e == last then 1 else 0
    ensures forall e :: Count(list, e) > 0 <==> e in list
  {
    assert multiset(list + [last]) == multiset(list) + multiset{last};
  }

  lemma {:induction false} RetainMeans(list: seq<Entry>, raw: Text)
    ensures multiset(Retain(list, raw)) == multiset(list)[Str(raw) := 0]
  {
    if list != [] {
      RetainMeans(list[1..], raw);
      assert list == [list[0]] + list[1..];
    }
  }

  lemma {:induction false} RetainNothing(list: seq<Entry>, raw: Text)
    requires Str(raw) !in list
    ensures Retain(list, raw) == list
  {
    if list != [] {
      RetainNothing(list[1..], raw);
    }
  }

  /** Dropping takes every copy of the named raws and no copy of anything else. */
  lemma {:induction false} DropMeans(list: seq<Entry>, raws: seq<Text>)
    ensures var r := Stripped(list, raws);
            forall e :: Count(r, e) == if Named(raws, e) then 0 else Count(list, e)
    decreases |raws|
  {
    if raws != [] {
      var n := |raws| - 1;
      DropMeans(list, raws[..n]);
      RetainMeans(Stripped(list, raws[..n]), raws[n]);
      assert raws == raws[..n] + [raws[n]];
    }
  }

  lemma CountIn(list: seq<Entry>, e: Entry)
    ensures Count(list, e) > 0 <==> e in list
  {
  }

  // ---- a history of edits ----

  function ApplyAll(intent: Intent, edits: seq<Edit>): Intent
    decreases |edits|
  {
    if edits == [] then intent else Apply(ApplyAll(intent, edits[..|edits| - 1]), edits[|edits| - 1])
  }

  predicate Mentions(e: Edit, raw: Text) {
    raw in e.raws
  }

  /** Whether a raw is in the file is decided by the last edit that names it. */
  ghost predicate LastWord(intent: Intent, edits: seq<Edit>, raw: Text)
    decreases |edits|
  {
    if edits == [] then Str(raw) in intent.breaks
    else if Mentions(edits[|edits| - 1], raw) then edits[|edits| - 1].Append?
    else LastWord(intent, edits[..|edits| - 1], raw)
  }

  lemma {:induction false} LastWordDecides(intent: Intent, edits: seq<Edit>, raw: Text)
    ensures Str(raw) in ApplyAll(intent, edits).breaks <==> LastWord(intent, edits, raw)
    ensures ApplyAll(intent, edits).others == intent.others
    decreases |edits|
  {
    if edits != [] {
      var n := |edits| - 1;
      LastWordDecides(intent, edits[..n], raw);
      var list := ApplyAll(intent, edits[..n]).breaks;
      match edits[n]
      case Append(raws) =>
        AppendMeans(list, raws);
      case Drop(raws) =>
        DropMeans(list, raws);
        CountIn(list, Str(raw));
        CountIn(Stripped(list, raws), Str(raw));
    }
  }

  /** No duplicates appear that were not there at the start. */
  lemma {:induction false} NoNewDuplicates(intent: Intent, edits: seq<Edit>, e: Entry)
    ensures Count(ApplyAll(intent, edits).breaks, e) <= if Count(intent.breaks, e) > 1 then Count(intent.breaks, e) else 1
    decreases |edits|
  {
    if edits != [] {
      var n := |edits| - 1;
      NoNewDuplicates(intent, edits[..n], e);
      var list := ApplyAll(intent, edits[..n]).breaks;
      match edits[n]
      case Append(raws) =>
        AppendMeans(list, raws);
      case Drop(raws) =>
        DropMeans(list, raws);
    }
  }
}
