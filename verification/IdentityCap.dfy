/** Capping an identity object: long strings first, then the whole serialized form. */
module IdentityCap {
  import opened Wrappers
  import opened Decimal

  const FIELD_CAP: nat := 512
  const TOTAL_CAP: nat := 2048
  const ARRAY_CAP: nat := 32
  const MAX_PASSES: nat := 4096
  /** The largest string length of a 64-bit machine. */
  const USIZE_MAX: nat := 0xFFFF_FFFF_FFFF_FFFF

  /** A Unicode scalar value. */
  type Char = c: int | 0 <= c < 0x11_0000

  /** Null, booleans and numbers appear as the text they are serialized to. */
  datatype Json = Scalar(text: seq<Char>) | Str(s: seq<Char>) | Arr(items: Items) | Obj(items: Items)

  /** Members in order; the key is used in objects only. */
  datatype Items = Nil | Cons(key: seq<Char>, val: Json, rest: Items)

  // ---- serialized size ----

  /** Characters a character takes inside a JSON string. */
  function Escaped(c: Char): nat {
    if c == 34 || c == 92 || c == 8 || c == 9 || c == 10 || c == 12 || c == 13 then 2
    else if c < 32 then 6
    else 1
  }

  function Weight(s: seq<Char>): (w: nat)
    ensures w >= |s|
  {
    if s == [] then 0 else Escaped(s[0]) + Weight(s[1..])
  }

  function Len(items: Items): nat {
    match items case Nil => 0 case Cons(_, _, rest) => 1 + Len(rest)
  }

  /** Length of the compact serialization, in characters. */
  function Size(v: Json): nat {
    match v
    case Scalar(t) => |t|
    case Str(s) => 2 + Weight(s)
    case Arr(items) => 2 + SizeOf(items, false)
    case Obj(items) => 2 + SizeOf(items, true)
  }

  function SizeOf(items: Items, keyed: bool): nat {
    match items
    case Nil => 0
    case Cons(key, val, rest) =>
      (if keyed then 3 + Weight(key) else 0) + Size(val) + (if rest.Nil? then 0 else 1) + SizeOf(rest, keyed)
  }

  /** UTF-8 length. */
  function Bytes(s: seq<Char>): nat {
    if s == [] then 0
    else (if s[0] < 0x80 then 1 else if s[0] < 0x800 then 2 else if s[0] < 0x1_0000 then 3 else 4) + Bytes(s[1..])
  }

  // ---- truncation ----

  const OPEN: seq<Char> := [0x2026, 32, 40, 43]
  const MORE_CHARS: seq<Char> := [32, 109, 111, 114, 101, 32, 99, 104, 97, 114, 115, 41]
  const MORE: seq<Char> := [32, 109, 111, 114, 101, 41]
  const ELLIPSIS: seq<Char> := [0x2026]

  /** `… (+N more chars)` */
  function Marker(n: nat): seq<Char> {
    OPEN + Digits(n) + MORE_CHARS
  }

  function TruncChars(s: seq<Char>, limit: nat): seq<Char> {
    if |s| <= limit then s else s[..limit] + Marker(|s| - limit)
  }

  /** One pass over the picked string. */
  function Shorter(s: seq<Char>): seq<Char>
    requires |s| > 1
  {
    var n := |s|;
    var cand := TruncChars(s, if n > 65 then n - 64 else 1);
    if |cand| < n then cand else ELLIPSIS
  }

  // ---- the first walk ----

  function Take(items: Items, n: nat): Items {
    if n == 0 || items.Nil? then Nil else Cons(items.key, items.val, Take(items.rest, n - 1))
  }

  function Snoc(items: Items, val: Json): Items {
    match items case Nil => Cons([], val, Nil) case Cons(k, v, rest) => Cons(k, v, Snoc(rest, val))
  }

  function CapArray(items: Items): Items {
    if Len(items) > ARRAY_CAP then Snoc(Take(items, ARRAY_CAP), Str(OPEN + Digits(Len(items) - ARRAY_CAP) + MORE)) else items
  }

  lemma {:induction false} TakeDepth(items: Items, n: nat)
    ensures DepthOf(Take(items, n)) <= DepthOf(items)
    decreases items
  {
    if n > 0 && items.Cons? {
      TakeDepth(items.rest, n - 1);
    }
  }

  lemma {:induction false} SnocDepth(items: Items, val: Json)
    ensures DepthOf(Snoc(items, val)) == Max(DepthOf(items), 1 + Depth(val))
  {
    if items.Cons? {
      SnocDepth(items.rest, val);
    }
  }

  lemma CapArrayDepth(items: Items)
    ensures DepthOf(CapArray(items)) <= DepthOf(items)
  {
    hide Digits, Take, Snoc;
    if Len(items) > ARRAY_CAP {
      TakeDepth(items, ARRAY_CAP);
      SnocDepth(Take(items, ARRAY_CAP), Str(OPEN + Digits(Len(items) - ARRAY_CAP) + MORE));
    }
  }

  function Walk(v: Json): Json
    decreases Depth(v), 1
  {
    match v
    case Scalar(_) => v
    case Str(s) => Str(TruncChars(s, FIELD_CAP))
    case Arr(items) =>
      CapArrayDepth(items);
      Arr(WalkAll(CapArray(items)))
    case Obj(items) => Obj(WalkAll(items))
  }

  function WalkAll(items: Items): Items
    decreases DepthOf(items), 0, Len(items)
  {
    match items
    case Nil => Nil
    case Cons(key, val, rest) => Cons(key, Walk(val), WalkAll(rest))
  }

  function Max(a: nat, b: nat): nat {
    if a < b then b else a
  }

  function Depth(v: Json): nat {
    match v
    case Scalar(_) => 0
    case Str(_) => 0
    case Arr(items) => 1 + DepthOf(items)
    case Obj(items) => 1 + DepthOf(items)
  }

  function DepthOf(items: Items): nat {
    match items case Nil => 0 case Cons(_, val, rest) => Max(1 + Depth(val), DepthOf(rest))
  }

  // ---- the total loop ----

  /** Byte length of the longest string of more than one character. */
  function Longest(v: Json): Option<nat> {
    match v
    case Scalar(_) => None
    case Str(s) => if |s| > 1 then Some(Bytes(s)) else None
    case Arr(items) => LongestOf(items)
    case Obj(items) => LongestOf(items)
  }

  function LongestOf(items: Items): Option<nat> {
    match items
    case Nil => None
    case Cons(_, val, rest) =>
      var a, b := Longest(val), LongestOf(rest);
      if a.None? then b else if b.None? then a else Some(Max(a.value, b.value))
  }

  /** The pick: the last of the longest strings, shortened in place. */
  function Shrunk(v: Json): Json
    requires Longest(v).Some?
  {
    match v
    case Str(s) => Str(Shorter(s))
    case Arr(items) => Arr(ShrunkIn(items))
    case Obj(items) => Obj(ShrunkIn(items))
  }

  function ShrunkIn(items: Items): Items
    requires LongestOf(items).Some?
  {
    var a, b := Longest(items.val), LongestOf(items.rest);
    if b.Some? && (a.None? || b.value >= a.value) then Cons(items.key, items.val, ShrunkIn(items.rest))
    else Cons(items.key, Shrunk(items.val), items.rest)
  }

  /** The value after at most k passes of the loop. */
  function Passes(v: Json, k: nat): Json
    decreases k
  {
    if Size(v) <= TOTAL_CAP || k == 0 || Longest(v).None? then v else Passes(Shrunk(v), k - 1)
  }

  // ---- a pass makes progress ----

  lemma {:induction false} WeightAppend(a: seq<Char>, b: seq<Char>)
    ensures Weight(a + b) == Weight(a) + Weight(b)
  {
    if a == [] {
      assert a + b == b;
    } else {
      assert (a + b)[1..] == a[1..] + b;
      WeightAppend(a[1..], b);
    }
  }

  predicate Plain(s: seq<Char>) {
    forall i | 0 <= i < |s| :: Escaped(s[i]) == 1
  }

  lemma {:induction false} PlainWeight(s: seq<Char>)
    requires Plain(s)
    ensures Weight(s) == |s|
  {
    if s != [] {
      PlainWeight(s[1..]);
    }
  }

  lemma MarkerPlain(n: nat)
    ensures Plain(Marker(n)) && |Marker(n)| == 16 + |Dec(n)|
  {
    var d := Digits(n);
    assert forall i | 0 <= i < |d| :: 48 <= d[i] <= 57;
  }

  lemma EllipsisPlain()
    ensures Weight(ELLIPSIS) == 1
  {
    PlainWeight(ELLIPSIS);
  }

  lemma TwoDigits(n: nat)
    requires n < 100
    ensures |Dec(n)| == if n < 10 then 1 else 2
  {
    assert n >= 10 ==> Dec(n) == Dec(n / 10) + [48 + n % 10];
    assert n >= 10 ==> |Dec(n / 10)| == 1;
  }

  /** Passes a string of n characters can take: n to n - 46, below 66 to 19, below 20 to 1. */
  function Steps(n: nat): nat {
    if n <= 1 then 0 else if n < 20 then 1 else if n < 66 then 2 else 1 + Steps(n - 46)
  }

  /** A pass on a string lowers its serialized size, whatever it escapes to, and uses up one
      of its steps. */
  lemma ShorterProgress(s: seq<Char>)
    requires |s| > 1
    ensures Weight(Shorter(s)) < Weight(s)
    ensures Steps(|Shorter(s)|) == Steps(|s|) - 1
  {
    hide Escaped, Plain, Marker, Weight;
    var n := |s|;
    var limit := if n > 65 then n - 64 else 1;
    var cand := TruncChars(s, limit);
    MarkerPlain(n - limit);
    TwoDigits(n - limit);
    PlainWeight(Marker(n - limit));
    assert s == s[..limit] + s[limit..];
    WeightAppend(s[..limit], s[limit..]);
    WeightAppend(s[..limit], Marker(n - limit));
    EllipsisPlain();
    assert |cand| == limit + 16 + |Dec(n - limit)|;
  }

  function Total(v: Json): nat {
    match v
    case Scalar(_) => 0
    case Str(s) => Steps(|s|)
    case Arr(items) => TotalOf(items)
    case Obj(items) => TotalOf(items)
  }

  function TotalOf(items: Items): nat {
    match items case Nil => 0 case Cons(_, val, rest) => Total(val) + TotalOf(rest)
  }

  /** The tree with its strings blanked out: what capping must not touch. */
  function Skeleton(v: Json): Json {
    match v
    case Scalar(_) => v
    case Str(_) => Str([])
    case Arr(items) => Arr(SkeletonOf(items))
    case Obj(items) => Obj(SkeletonOf(items))
  }

  function SkeletonOf(items: Items): Items {
    match items case Nil => Nil case Cons(key, val, rest) => Cons(key, Skeleton(val), SkeletonOf(rest))
  }

  lemma {:induction false} ShrunkProgress(v: Json)
    requires Longest(v).Some?
    ensures Size(Shrunk(v)) < Size(v) && Total(Shrunk(v)) == Total(v) - 1 && Skeleton(Shrunk(v)) == Skeleton(v)
  {
    hide Shorter;
    match v
    case Str(s) => ShorterProgress(s);
    case Arr(items) => ShrunkInProgress(items, false);
    case Obj(items) => ShrunkInProgress(items, true);
  }

  lemma {:induction false} ShrunkInProgress(items: Items, keyed: bool)
    requires LongestOf(items).Some?
    ensures var r := ShrunkIn(items);
            && SizeOf(r, keyed) < SizeOf(items, keyed) && TotalOf(r) == TotalOf(items) - 1 && SkeletonOf(r) == SkeletonOf(items)
            && r.Cons?
  {
    hide Shorter, Weight;
    var a, b := Longest(items.val), LongestOf(items.rest);
    if b.Some? && (a.None? || b.value >= a.value) {
      ShrunkInProgress(items.rest, keyed);
    } else {
      ShrunkProgress(items.val);
    }
  }

  /** Nothing is left to pick exactly when every string has at most one character. */
  lemma {:induction false} NothingLongIff(v: Json)
    ensures Longest(v).None? <==> Total(v) == 0
  {
    match v
    case Scalar(_) =>
    case Str(s) =>
    case Arr(items) => NothingLongIn(items);
    case Obj(items) => NothingLongIn(items);
  }

  lemma {:induction false} NothingLongIn(items: Items)
    ensures LongestOf(items).None? <==> TotalOf(items) == 0
  {
    match items
    case Nil =>
    case Cons(_, val, rest) =>
      NothingLongIff(val);
      NothingLongIn(rest);
  }

  /** However the value escapes, k passes leave it within the cap, or without a string of more
      than one character, or shrunk k times; keys and non-strings are as they were. */
  lemma {:induction false} PassesConverge(v: Json, k: nat)
    ensures var r := Passes(v, k);
            && (Size(r) <= TOTAL_CAP || Longest(r).None? || (Total(v) >= k && Size(r) + k <= Size(v)))
            && (Total(v) <= k ==> Size(r) <= TOTAL_CAP || Longest(r).None?)
            && Skeleton(r) == Skeleton(v) && Size(r) <= Size(v)
    decreases k
  {
    hide Shrunk, Size, Longest, Total, Skeleton;
    NothingLongIff(v);
    if Size(v) > TOTAL_CAP && k > 0 && Longest(v).Some? {
      ShrunkProgress(v);
      PassesConverge(Shrunk(v), k - 1);
    }
  }

  method CapIdentity(v: Json) returns (r: Json)
    ensures r == Passes(Walk(v), MAX_PASSES)
  {
    hide Walk, Shrunk, Size, Longest;
    r := Walk(v);
    var passes := 0;
    while Size(r) > TOTAL_CAP && passes < MAX_PASSES
      invariant passes <= MAX_PASSES
      invariant Passes(r, MAX_PASSES - passes) == Passes(Walk(v), MAX_PASSES)
      decreases MAX_PASSES - passes
    {
      passes := passes + 1;
      if Longest(r).None? {
        break;
      }
      r := Shrunk(r);
    }
  }

  // ---- the backstop ----

  ghost predicate StringsWithin(v: Json, n: nat) {
    match v
    case Scalar(_) => true
    case Str(s) => |s| <= n
    case Arr(items) => Len(items) <= USIZE_MAX && AllWithin(items, n)
    case Obj(items) => AllWithin(items, n)
  }

  ghost predicate AllWithin(items: Items, n: nat) {
    match items case Nil => true case Cons(_, val, rest) => StringsWithin(val, n) && AllWithin(rest, n)
  }

  /** Strings of more than one character. */
  function LongStrings(v: Json): nat {
    match v
    case Scalar(_) => 0
    case Str(s) => if |s| > 1 then 1 else 0
    case Arr(items) => LongStringsOf(items)
    case Obj(items) => LongStringsOf(items)
  }

  function LongStringsOf(items: Items): nat {
    match items case Nil => 0 case Cons(_, val, rest) => LongStrings(val) + LongStringsOf(rest)
  }

  /** The length of a truncated field: 512 characters and a marker of at most 36. */
  const WALKED: nat := 548

  lemma DecFits(n: nat)
    requires n <= USIZE_MAX
    ensures |Dec(n)| <= 20
  {
    assert PowTen(20) == 100000000000000000000 by {
      Powers();
    }
    DecLength(n, 20, USIZE_MAX + 1);
  }

  lemma Powers()
    ensures PowTen(20) == 100000000000000000000
  {
    assert PowTen(5) == 100000;
    assert PowTen(10) == 10000000000;
    assert PowTen(15) == 1000000000000000;
  }

  lemma {:induction false} WalkBounds(v: Json)
    requires StringsWithin(v, USIZE_MAX)
    ensures StringsWithin(Walk(v), WALKED)
    decreases Depth(v), 1
  {
    match v
    case Scalar(_) =>
    case Str(s) =>
      if |s| > FIELD_CAP {
        MarkerPlain(|s| - FIELD_CAP);
        DecFits(|s| - FIELD_CAP);
      }
    case Arr(items) =>
      CapArrayDepth(items);
      CapArrayBounds(items);
      WalkAllBounds(CapArray(items));
    case Obj(items) => WalkAllBounds(items);
  }

  lemma {:induction false} WalkAllBounds(items: Items)
    requires AllWithin(items, USIZE_MAX)
    ensures AllWithin(WalkAll(items), WALKED) && Len(WalkAll(items)) == Len(items)
    decreases DepthOf(items), 0, Len(items)
  {
    if items.Cons? {
      WalkBounds(items.val);
      WalkAllBounds(items.rest);
    }
  }

  lemma {:induction false} TakeBounds(items: Items, n: nat, bound: nat)
    requires AllWithin(items, bound)
    ensures AllWithin(Take(items, n), bound) && Len(Take(items, n)) <= n
    decreases items
  {
    if n > 0 && items.Cons? {
      TakeBounds(items.rest, n - 1, bound);
    }
  }

  lemma {:induction false} SnocBounds(items: Items, val: Json, bound: nat)
    requires AllWithin(items, bound) && StringsWithin(val, bound)
    ensures AllWithin(Snoc(items, val), bound) && Len(Snoc(items, val)) == Len(items) + 1
  {
    if items.Cons? {
      SnocBounds(items.rest, val, bound);
    }
  }

  lemma CapArrayBounds(items: Items)
    requires Len(items) <= USIZE_MAX && AllWithin(items, USIZE_MAX)
    ensures AllWithin(CapArray(items), USIZE_MAX) && Len(CapArray(items)) <= ARRAY_CAP + 1
  {
    if Len(items) > ARRAY_CAP {
      TakeBounds(items, ARRAY_CAP, USIZE_MAX);
      DecFits(Len(items) - ARRAY_CAP);
      SnocBounds(Take(items, ARRAY_CAP), Str(OPEN + Digits(Len(items) - ARRAY_CAP) + MORE), USIZE_MAX);
    }
  }

  lemma {:induction false} StepsBound(n: nat, k: nat)
    requires n <= 65 + 46 * k
    ensures Steps(n) <= 2 + k
    decreases k
  {
    if n >= 66 {
      StepsBound(n - 46, k - 1);
    }
  }

  lemma {:induction false} TotalBound(v: Json)
    requires StringsWithin(v, WALKED)
    ensures Total(v) <= 13 * LongStrings(v)
  {
    match v
    case Scalar(_) =>
    case Str(s) => StepsBound(|s|, 11);
    case Arr(items) => TotalOfBound(items);
    case Obj(items) => TotalOfBound(items);
  }

  lemma {:induction false} TotalOfBound(items: Items)
    requires AllWithin(items, WALKED)
    ensures TotalOf(items) <= 13 * LongStringsOf(items)
  {
    if items.Cons? {
      TotalBound(items.val);
      TotalOfBound(items.rest);
    }
  }

  /** Capping any value leaves its keys, shape and non-strings alone, and ends within the cap
      or with no string of more than one character, or has run all 4096 passes. With at most
      315 strings to shorten the pass limit never decides. */
  lemma CapIdentityBounded(v: Json)
    requires StringsWithin(v, USIZE_MAX)
    ensures var w := Walk(v); var r := Passes(w, MAX_PASSES);
            && Skeleton(r) == Skeleton(w)
            && (Size(r) <= TOTAL_CAP || Longest(r).None? || (Total(w) >= MAX_PASSES && Size(r) + MAX_PASSES <= Size(w)))
            && (LongStrings(w) <= 315 ==> Size(r) <= TOTAL_CAP || Total(r) == 0)
  {
    hide Passes, Walk;
    WalkBounds(v);
    TotalBound(Walk(v));
    PassesConverge(Walk(v), MAX_PASSES);
    NothingLongIff(Passes(Walk(v), MAX_PASSES));
  }

  /** Within the field and array caps. */
  ghost predicate Short(v: Json) {
    match v
    case Scalar(_) => true
    case Str(s) => |s| <= FIELD_CAP
    case Arr(items) => Len(items) <= ARRAY_CAP && AllShort(items)
    case Obj(items) => AllShort(items)
  }

  ghost predicate AllShort(items: Items) {
    match items case Nil => true case Cons(_, val, rest) => Short(val) && AllShort(rest)
  }

  lemma {:induction false} WalkKeepsShort(v: Json)
    requires Short(v)
    ensures Walk(v) == v
    decreases Depth(v), 1
  {
    match v
    case Scalar(_) =>
    case Str(_) =>
    case Arr(items) => WalkAllKeepsShort(items);
    case Obj(items) => WalkAllKeepsShort(items);
  }

  lemma {:induction false} WalkAllKeepsShort(items: Items)
    requires AllShort(items)
    ensures WalkAll(items) == items
    decreases DepthOf(items), 0, Len(items)
  {
    if items.Cons? {
      WalkKeepsShort(items.val);
      WalkAllKeepsShort(items.rest);
    }
  }

  /** A short value is left exactly as it is when it fits the total cap, or has nothing to
      shorten; otherwise it is made smaller. */
  lemma ShortUntouchedIff(v: Json)
    requires Short(v)
    ensures Passes(Walk(v), MAX_PASSES) == v <==> Size(v) <= TOTAL_CAP || Longest(v).None?
    ensures Size(Passes(Walk(v), MAX_PASSES)) <= Size(v)
  {
    WalkKeepsShort(v);
    PassesConverge(v, MAX_PASSES);
    if Size(v) > TOTAL_CAP && Longest(v).Some? {
      ShrunkProgress(v);
      PassesConverge(Shrunk(v), MAX_PASSES - 1);
    }
  }

  // ---- capping twice ----

  lemma {:induction false} DecSmall(n: nat)
    ensures |Dec(n)| <= n / 10 + 1
  {
    if n >= 10 {
      DecSmall(n / 10);
    }
  }

  /** Truncating a field twice gives another text, save for the one length whose marker counts
      its own characters. */
  lemma TruncTwiceIff(s: seq<Char>)
    ensures TruncChars(TruncChars(s, FIELD_CAP), FIELD_CAP) == TruncChars(s, FIELD_CAP)
       <==> |s| <= FIELD_CAP || |s| == 530
  {
    if |s| > FIELD_CAP {
      var m := |s| - FIELD_CAP;
      var t := TruncChars(s, FIELD_CAP);
      MarkerPlain(m);
      assert t[..FIELD_CAP] == s[..FIELD_CAP];
      var m' := 16 + |Dec(m)|;
      assert TruncChars(t, FIELD_CAP) == s[..FIELD_CAP] + Marker(m');
      MarkersDiffer(s[..FIELD_CAP], m, m');
      DecSmall(m);
      if m < 100 {
        TwoDigits(m);
      }
    }
  }

  lemma MarkersDiffer(kept: seq<Char>, m: nat, n: nat)
    ensures kept + Marker(m) == kept + Marker(n) <==> m == n
  {
    if kept + Marker(m) == kept + Marker(n) {
      MarkerPlain(m);
      MarkerPlain(n);
      var k := |kept|;
      assert Marker(m) == (kept + Marker(m))[k..] && Marker(n) == (kept + Marker(n))[k..];
      assert Digits(m) == Marker(m)[4..|Marker(m)| - 12] && Digits(n) == Marker(n)[4..|Marker(n)| - 12];
      ValueOfDec(m);
      ValueOfDec(n);
    }
  }
}
