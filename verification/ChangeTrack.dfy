/**
 Change tracking between stops: each stop's local values are scanned, cut to the first 256
 names in sort order, and compared with what the previous stop left.
 */
module ChangeTrack {
  import opened Wrappers
  import opened Utf16
  import opened TextOrder

  const CHANGE_TRACK_MAX: nat := 256

  /** The marker of a display list that was cut. */
  const ELLIPSIS: Text := [0x2026]

  /** A scanned property; no value when the entry is malformed or cannot be formatted. */
  datatype Prop = Prop(name: Text, val: Option<Text>)

  datatype Reason = FirstSnapshot | Truncated | TrackingError | FunctionChanged

  datatype Tracking = Tracking(complete: bool, scanned: nat, total: Option<nat>, truncated: bool, reason: Option<Reason>)

  /** What a stop leaves behind for the response and for the next comparison. */
  datatype Track = Track(
    top: Option<seq<Bind>>,        // lastTop
    func: Option<Text>,            // lastFunc
    changed: seq<Text>,            // lastChanged
    removed: seq<Text>,            // lastRemoved
    changedComplete: bool,         // lastChangedComplete
    scanComplete: bool,            // lastTrackComplete
    scanReason: Option<Reason>,    // lastTrackReason
    tracking: Tracking)            // lastChangeTracking

  const START: Track := Track(None, None, [], [], false, false, Some(FirstSnapshot),
    Tracking(false, 0, None, false, Some(FirstSnapshot)))

  // ---- one scan ----

  function Lookup(binds: seq<Bind>, name: Text): (r: Option<Text>)
    ensures r.Some? <==> exists i :: 0 <= i < |binds| && binds[i].name == name
  {
    if binds == [] then None else if binds[0].name == name then Some(binds[0].val) else Lookup(binds[1..], name)
  }

  /** `name in object`: own properties and those every plain object inherits. */
  predicate In(name: Text, binds: seq<Bind>, inherited: set<Text>) {
    Lookup(binds, name).Some? || name in inherited
  }

  /** The full scan: the first formatted value of each name, in property order. */
  function Scan(props: seq<Prop>, inherited: set<Text>): (r: seq<Bind>)
    decreases |props|
  {
    if props == [] then []
    else
      var front := Scan(props[..|props| - 1], inherited);
      var p := props[|props| - 1];
      if p.val.None? || p.name == ELLIPSIS || In(p.name, front, inherited) then front
      else front + [Bind(p.name, p.val.value)]
  }

  function Min(a: nat, b: nat): nat {
    if a < b then a else b
  }

  /** The scan cut to its first names in sort order. */
  function Cut(scan: seq<Bind>): (r: seq<Bind>)
    ensures |r| == Min(|scan|, CHANGE_TRACK_MAX)
  {
    Sort(scan)[..Min(|scan|, CHANGE_TRACK_MAX)]
  }

  // ---- the comparison ----

  /** Names of `cur` kept by the filters of the comparison, in sort order. */
  function Differing(cur: seq<Bind>, last: seq<Bind>, inherited: set<Text>, newToo: bool): seq<Text>
    decreases |cur|
  {
    if cur == [] then []
    else
      var front := Differing(cur[..|cur| - 1], last, inherited, newToo);
      var b := cur[|cur| - 1];
      var present := In(b.name, last, inherited);
      var differs := Lookup(last, b.name) != Some(b.val);
      if (if newToo then !present || differs else present && differs) then front + [b.name] else front
  }

  function Gone(last: seq<Bind>, cur: seq<Bind>, inherited: set<Text>): seq<Text>
    decreases |last|
  {
    if last == [] then []
    else
      var front := Gone(last[..|last| - 1], cur, inherited);
      var b := last[|last| - 1];
      if In(b.name, cur, inherited) then front else front + [b.name]
  }

  /** compareTrack followed by storeTrack, for a scan that was fetched. */
  function Compared(t: Track, cur: seq<Bind>, total: nat, func: Text, inherited: set<Text>): Track {
    var truncated := total > CHANGE_TRACK_MAX;
    var scanReason := if truncated then Some(Truncated) else None;
    var scanned := Min(total, CHANGE_TRACK_MAX);
    if t.top.None? || t.func != Some(func) then
      var reason := if truncated then Truncated else if t.top.None? then FirstSnapshot else FunctionChanged;
      Track(Some(cur), Some(func), [], [], false, !truncated, scanReason,
        Tracking(false, scanned, Some(total), truncated, Some(reason)))
    else if !t.scanComplete || truncated then
      var reason := if truncated then Truncated else if t.scanReason.Some? then t.scanReason.value else Truncated;
      Track(Some(cur), Some(func), Differing(cur, t.top.value, inherited, false), [], false, !truncated, scanReason,
        Tracking(false, scanned, Some(total), truncated, Some(reason)))
    else
      Track(Some(cur), Some(func), Differing(cur, t.top.value, inherited, true), Gone(t.top.value, cur, inherited), true, true,
        None, Tracking(true, scanned, Some(total), false, None))
  }

  /** degradeTrack: the fetch failed. */
  function Degraded(func: Text): Track {
    Track(Some([]), Some(func), [], [], false, false, Some(TrackingError),
      Tracking(false, 0, None, false, Some(TrackingError)))
  }

  class Tracker {
    /** The property names every plain object has. */
    const inherited: set<Text>
    var lastTop: Option<seq<Bind>>
    var lastFunc: Option<Text>
    var lastChanged: seq<Text>
    var lastRemoved: seq<Text>
    var lastChangedComplete: bool
    var lastTrackComplete: bool
    var lastTrackReason: Option<Reason>
    var lastChangeTracking: Tracking

    function State(): Track
      reads this
    {
      Track(lastTop, lastFunc, lastChanged, lastRemoved, lastChangedComplete, lastTrackComplete, lastTrackReason,
        lastChangeTracking)
    }

    constructor (inherited: set<Text>)
      ensures State() == START && this.inherited == inherited
    {
      this.inherited := inherited;
      lastTop, lastFunc, lastChanged, lastRemoved := None, None, [], [];
      lastChangedComplete, lastTrackComplete, lastTrackReason := false, false, Some(FirstSnapshot);
      lastChangeTracking := Tracking(false, 0, None, false, Some(FirstSnapshot));
    }

    method StoreTrack(cur: seq<Bind>, func: Text, changed: seq<Text>, removed: seq<Text>, complete: bool, scanned: nat,
      total: Option<nat>, truncated: bool, reason: Option<Reason>, curComplete: bool, scanReason: Option<Reason>)
      modifies this
      ensures State() == Track(Some(cur), Some(func), changed, removed, complete, curComplete,
                if scanReason.Some? || curComplete then scanReason else reason,
                Tracking(complete, scanned, total, truncated, if complete then None else reason))
    {
      lastTop, lastFunc, lastChanged, lastRemoved := Some(cur), Some(func), changed, removed;
      lastChangedComplete, lastTrackComplete := complete, curComplete;
      lastTrackReason := if scanReason.Some? then scanReason else if curComplete then None else reason;
      lastChangeTracking := Tracking(complete, scanned, total, truncated, if complete then None else reason);
    }

    method ChangedNames(cur: seq<Bind>, last: seq<Bind>, newToo: bool) returns (r: seq<Text>)
      ensures r == Differing(cur, last, inherited, newToo)
    {
      r := [];
      for n := 0 to |cur|
        invariant r == Differing(cur[..n], last, inherited, newToo)
      {
        assert cur[..n + 1][..n] == cur[..n];
        var present := In(cur[n].name, last, inherited);
        var differs := Lookup(last, cur[n].name) != Some(cur[n].val);
        if (if newToo then !present || differs else present && differs) {
          r := r + [cur[n].name];
        }
      }
      assert cur[..|cur|] == cur;
    }

    method RemovedNames(last: seq<Bind>, cur: seq<Bind>) returns (r: seq<Text>)
      ensures r == Gone(last, cur, inherited)
    {
      r := [];
      for n := 0 to |last|
        invariant r == Gone(last[..n], cur, inherited)
      {
        assert last[..n + 1][..n] == last[..n];
        if !In(last[n].name, cur, inherited) {
          r := r + [last[n].name];
        }
      }
      assert last[..|last|] == last;
    }

    method CompareTrack(cur: seq<Bind>, total: nat, func: Text)
      modifies this
      ensures State() == Compared(old(State()), cur, total, func, inherited)
    {
      var truncated := total > CHANGE_TRACK_MAX;
      var scanReason := if truncated then Some(Truncated) else None;
      var scanned := Min(total, CHANGE_TRACK_MAX);
      var curComplete := scanReason.None?;
      if lastTop.None? {
        var reason := if scanReason.Some? then scanReason else Some(FirstSnapshot);
        StoreTrack(cur, func, [], [], false, scanned, Some(total), truncated, reason, curComplete, scanReason);
        return;
      }
      if lastFunc != Some(func) {
        var reason := if scanReason.Some? then scanReason else Some(FunctionChanged);
        StoreTrack(cur, func, [], [], false, scanned, Some(total), truncated, reason, curComplete, scanReason);
        return;
      }
      if !lastTrackComplete || !curComplete {
        var changed := ChangedNames(cur, lastTop.value, false);
        var prevReason := if lastTrackReason.Some? then lastTrackReason else Some(Truncated);
        var reason := if curComplete then prevReason else scanReason;
        StoreTrack(cur, func, changed, [], false, scanned, Some(total), truncated, reason, curComplete, scanReason);
        return;
      }
      var changed := ChangedNames(cur, lastTop.value, true);
      var removed := RemovedNames(lastTop.value, cur);
      StoreTrack(cur, func, changed, removed, true, scanned, Some(total), truncated, None, true, None);
    }

    /** trackChanges; no properties when the fetch failed. */
    method TrackChanges(props: Option<seq<Prop>>, func: Text)
      modifies this
      ensures State() ==
                if props.None? then Degraded(func)
                else Compared(old(State()), Cut(Scan(props.value, inherited)), |Scan(props.value, inherited)|, func, inherited)
    {
      if props.None? {
        StoreTrack([], func, [], [], false, 0, None, false, Some(TrackingError), false, Some(TrackingError));
        return;
      }
      var names := ScanNames(props.value);
      CompareTrack(Cut(names), |names|, func);
    }

    method ScanNames(props: seq<Prop>) returns (names: seq<Bind>)
      ensures names == Scan(props, inherited)
    {
      names := [];
      for n := 0 to |props|
        invariant names == Scan(props[..n], inherited)
      {
        assert props[..n + 1][..n] == props[..n];
        var p := props[n];
        if p.name == ELLIPSIS || In(p.name, names, inherited) || p.val.None? {
          continue;
        }
        names := names + [Bind(p.name, p.val.value)];
      }
      assert props[..|props|] == props;
    }
  }

  // ---- scans ----

  ghost predicate Agrees(a: seq<Bind>, b: seq<Bind>) {
    forall n: Text :: Lookup(a, n).Some? ==> Lookup(b, n) == Lookup(a, n)
  }

  lemma {:induction false} LookupIs(binds: seq<Bind>, i: nat)
    requires DistinctNames(binds) && i < |binds|
    ensures Lookup(binds, binds[i].name) == Some(binds[i].val)
  {
    if i > 0 {
      LookupIs(binds[1..], i - 1);
    }
  }

  lemma {:induction false} LookupFinds(binds: seq<Bind>, name: Text) returns (i: nat)
    requires Lookup(binds, name).Some?
    ensures i < |binds| && binds[i] == Bind(name, Lookup(binds, name).value)
  {
    if binds[0].name == name {
      i := 0;
    } else {
      var k := LookupFinds(binds[1..], name);
      i := k + 1;
    }
  }

  /** Scanned names are distinct, and none is inherited. */
  lemma {:induction false} ScanNamesAreOwn(props: seq<Prop>, inherited: set<Text>)
    ensures DistinctNames(Scan(props, inherited))
    ensures forall i | 0 <= i < |Scan(props, inherited)| :: Scan(props, inherited)[i].name !in inherited
    decreases |props|
  {
    if props != [] {
      ScanNamesAreOwn(props[..|props| - 1], inherited);
    }
  }

  lemma SortedIsDistinct(binds: seq<Bind>)
    requires StrictlySorted(NamesOf(binds))
    ensures DistinctNames(binds)
  {
    hide Less;
    forall i, j | 0 <= i < j < |binds|
      ensures binds[i].name != binds[j].name
    {
      assert Less(NamesOf(binds)[i], NamesOf(binds)[j]);
      LessTotal(binds[i].name, binds[j].name);
    }
  }

  /** Looking up depends only on the binds, not on their order. */
  lemma SameLookup(a: seq<Bind>, b: seq<Bind>)
    requires DistinctNames(a) && DistinctNames(b) && forall x | x in a :: x in b
    ensures Agrees(a, b)
  {
    forall n: Text | Lookup(a, n).Some?
      ensures Lookup(b, n) == Lookup(a, n)
    {
      var i := LookupFinds(a, n);
      assert a[i] in b;
      var j :| 0 <= j < |b| && b[j] == a[i];
      LookupIs(b, j);
    }
  }

  ghost predicate GoodScan(scan: seq<Bind>, inherited: set<Text>) {
    DistinctNames(scan) && forall i | 0 <= i < |scan| :: scan[i].name !in inherited
  }

  /** The cut holds the least names of the scan with their values, and all of a short scan. */
  lemma CutOfScan(scan: seq<Bind>, inherited: set<Text>)
    requires GoodScan(scan, inherited)
    ensures StrictlySorted(NamesOf(Cut(scan))) && GoodScan(Cut(scan), inherited)
    ensures Agrees(Cut(scan), scan)
    ensures |scan| <= CHANGE_TRACK_MAX ==> Agrees(scan, Cut(scan))
    ensures forall x, y | x in Cut(scan) && y in scan && y !in Cut(scan) :: Less(x.name, y.name)
  {
    hide Less, Sort;
    var sorted, cut := Sort(scan), Cut(scan);
    SortSorts(scan);
    SortedIsDistinct(sorted);
    PrefixSorted(sorted, |cut|);
    SortedIsDistinct(cut);
    forall i | 0 <= i < |cut|
      ensures cut[i] in scan && cut[i].name !in inherited
    {
      assert cut[i] == sorted[i] && sorted[i] in sorted;
    }
    SameLookup(cut, scan);
    if |scan| <= CHANGE_TRACK_MAX {
      assert cut == sorted;
      SameLookup(scan, cut);
    }
    forall x, y | x in cut && y in scan && y !in cut
      ensures Less(x.name, y.name)
    {
      var i :| 0 <= i < |cut| && cut[i] == x;
      assert y in sorted;
      var j :| 0 <= j < |sorted| && sorted[j] == y;
      PrefixMembers(sorted, |cut|);
      assert Less(NamesOf(sorted)[i], NamesOf(sorted)[j]);
    }
  }

  lemma PrefixMembers(binds: seq<Bind>, n: nat)
    requires n <= |binds|
    ensures forall j | 0 <= j < n :: binds[j] in binds[..n]
  {
    forall j | 0 <= j < n
      ensures binds[j] in binds[..n]
    {
      assert binds[..n][j] == binds[j];
    }
  }

  lemma PrefixSorted(binds: seq<Bind>, n: nat)
    requires StrictlySorted(NamesOf(binds)) && n <= |binds|
    ensures StrictlySorted(NamesOf(binds[..n]))
  {
    hide Less;
    assert NamesOf(binds[..n]) == NamesOf(binds)[..n];
  }

  // ---- comparisons ----

  predicate Kept(b: Bind, last: seq<Bind>, newToo: bool) {
    var l := Lookup(last, b.name);
    if newToo then l != Some(b.val) else l.Some? && l != Some(b.val)
  }

  ghost predicate HasKept(cur: seq<Bind>, last: seq<Bind>, newToo: bool, n: Text) {
    exists i :: 0 <= i < |cur| && cur[i].name == n && Kept(cur[i], last, newToo)
  }

  ghost predicate HasGone(last: seq<Bind>, cur: seq<Bind>, n: Text) {
    Lookup(cur, n).None? && exists i :: 0 <= i < |last| && last[i].name == n
  }

  /** On own names the inherited ones play no part, and the filters keep the sort order. */
  lemma {:induction false} DifferingIs(cur: seq<Bind>, last: seq<Bind>, inherited: set<Text>, newToo: bool)
    requires StrictlySorted(NamesOf(cur)) && forall i | 0 <= i < |cur| :: cur[i].name !in inherited
    ensures var d := Differing(cur, last, inherited, newToo);
            && StrictlySorted(d)
            && forall n :: n in d <==> HasKept(cur, last, newToo, n)
    decreases |cur|
  {
    hide Less, StrictlySorted, Lookup;
    if cur == [] {
      NothingSorted();
    } else {
      var front, b := cur[..|cur| - 1], cur[|cur| - 1];
      var d := Differing(front, last, inherited, newToo);
      PrefixSorted(cur, |cur| - 1);
      DifferingIs(front, last, inherited, newToo);
      KeptSnoc(cur, last, newToo);
      LastIsGreatest(cur);
      forall n | n in d
        ensures Less(n, b.name)
      {
        var i :| 0 <= i < |front| && front[i].name == n;
      }
      SnocSorted(d, b.name);
    }
  }

  lemma KeptSnoc(cur: seq<Bind>, last: seq<Bind>, newToo: bool)
    requires cur != []
    ensures var b := cur[|cur| - 1];
            forall n :: HasKept(cur, last, newToo, n) <==>
              HasKept(cur[..|cur| - 1], last, newToo, n) || (b.name == n && Kept(b, last, newToo))
  {
    hide Kept;
    var front := cur[..|cur| - 1];
    assert forall i | 0 <= i < |front| :: front[i] == cur[i];
  }

  lemma GoneSnoc(last: seq<Bind>, cur: seq<Bind>)
    requires last != []
    ensures var b := last[|last| - 1];
            forall n :: HasGone(last, cur, n) <==>
              HasGone(last[..|last| - 1], cur, n) || (b.name == n && Lookup(cur, n).None?)
  {
    hide Lookup;
    var front := last[..|last| - 1];
    assert forall i | 0 <= i < |front| :: front[i] == last[i];
  }

  lemma NothingSorted()
    ensures StrictlySorted([])
  {
  }

  lemma SnocSorted(t: seq<Text>, x: Text)
    requires StrictlySorted(t) && forall y | y in t :: Less(y, x)
    ensures StrictlySorted(t + [x])
  {
    hide Less;
  }

  lemma LastIsGreatest(cur: seq<Bind>)
    requires StrictlySorted(NamesOf(cur)) && cur != []
    ensures forall i | 0 <= i < |cur| - 1 :: Less(cur[i].name, cur[|cur| - 1].name)
  {
    hide Less;
    forall i | 0 <= i < |cur| - 1
      ensures Less(cur[i].name, cur[|cur| - 1].name)
    {
      assert Less(NamesOf(cur)[i], NamesOf(cur)[|cur| - 1]);
    }
  }

  lemma {:induction false} GoneIs(last: seq<Bind>, cur: seq<Bind>, inherited: set<Text>)
    requires StrictlySorted(NamesOf(last)) && forall i | 0 <= i < |last| :: last[i].name !in inherited
    ensures var d := Gone(last, cur, inherited);
            && StrictlySorted(d)
            && forall n :: n in d <==> HasGone(last, cur, n)
    decreases |last|
  {
    hide Less, StrictlySorted, Lookup;
    if last == [] {
      NothingSorted();
    } else {
      var front, b := last[..|last| - 1], last[|last| - 1];
      var d := Gone(front, cur, inherited);
      PrefixSorted(last, |last| - 1);
      GoneIs(front, cur, inherited);
      GoneSnoc(last, cur);
      LastIsGreatest(last);
      forall n | n in d
        ensures Less(n, b.name)
      {
        var i :| 0 <= i < |front| && front[i].name == n;
      }
      SnocSorted(d, b.name);
    }
  }

  // ---- whole runs ----

  datatype Stop = Scanned(func: Text, props: seq<Prop>) | FetchFailed(func: Text)

  function Track1(t: Track, s: Stop, inherited: set<Text>): Track {
    match s
    case Scanned(func, props) => Compared(t, Cut(Scan(props, inherited)), |Scan(props, inherited)|, func, inherited)
    case FetchFailed(func) => Degraded(func)
  }

  /** The tracker after a sequence of stops. */
  function TrackAll(stops: seq<Stop>, inherited: set<Text>): Track
    decreases |stops|
  {
    if stops == [] then START else Track1(TrackAll(stops[..|stops| - 1], inherited), stops[|stops| - 1], inherited)
  }

  /** Every name the scan can see: it skips those that plain objects inherit. */
  function FullScan(s: Stop, inherited: set<Text>): seq<Bind>
    requires s.Scanned?
  {
    Scan(s.props, inherited)
  }

  /** The frame's locals, whatever they are called. */
  function Locals(s: Stop): seq<Bind>
    requires s.Scanned?
  {
    Scan(s.props, {})
  }

  /** What one stop stores, whatever came before it. */
  lemma StoredBaseline(stops: seq<Stop>, inherited: set<Text>)
    requires stops != []
    ensures var t := TrackAll(stops, inherited); var s := stops[|stops| - 1];
            && t.func == Some(s.func) && t.top.Some?
            && (s.FetchFailed? ==> t.top == Some([]) && !t.scanComplete && t.changed == [] && !t.changedComplete)
            && (s.Scanned? ==> t.top == Some(Cut(FullScan(s, inherited)))
                               && (t.scanComplete <==> |FullScan(s, inherited)| <= CHANGE_TRACK_MAX))
  {
    hide Cut, Scan, Differing, Gone;
  }

  /** Baseline soundness: the stored values are those of the full scan, for the 256 least
      names; flagged complete, they are the whole scan. */
  lemma BaselineIsTrue(stops: seq<Stop>, inherited: set<Text>)
    requires stops != [] && stops[|stops| - 1].Scanned?
    ensures var t := TrackAll(stops, inherited); var scan := FullScan(stops[|stops| - 1], inherited);
            && t.top.Some? && Agrees(t.top.value, scan) && |t.top.value| == Min(|scan|, CHANGE_TRACK_MAX)
            && (t.scanComplete <==> |scan| <= CHANGE_TRACK_MAX)
            && (t.scanComplete ==> Agrees(scan, t.top.value))
            && (forall x, y | x in t.top.value && y in scan && y !in t.top.value :: Less(x.name, y.name))
  {
    hide Cut, Scan, TrackAll, Less, Lookup;
    StoredBaseline(stops, inherited);
    ScanIsGood(stops[|stops| - 1].props, inherited);
    CutOfScan(FullScan(stops[|stops| - 1], inherited), inherited);
  }

  lemma ScanIsGood(props: seq<Prop>, inherited: set<Text>)
    ensures GoodScan(Scan(props, inherited), inherited)
  {
    ScanNamesAreOwn(props, inherited);
  }

  /** Two consecutive stops whose scans can be compared in full. */
  ghost predicate Comparable(stops: seq<Stop>, inherited: set<Text>) {
    var n := |stops|;
    && n >= 2 && stops[n - 1].Scanned? && stops[n - 2].Scanned? && stops[n - 1].func == stops[n - 2].func
    && |FullScan(stops[n - 1], inherited)| <= CHANGE_TRACK_MAX && |FullScan(stops[n - 2], inherited)| <= CHANGE_TRACK_MAX
  }

  /** `changedComplete` is reported exactly when both scans of one frame were exhaustive. */
  lemma CompleteIff(stops: seq<Stop>, inherited: set<Text>)
    requires stops != []
    ensures TrackAll(stops, inherited).changedComplete <==> Comparable(stops, inherited)
    ensures !TrackAll(stops, inherited).changedComplete ==> TrackAll(stops, inherited).removed == []
  {
    hide Cut, Scan, Differing, Gone;
    if |stops| >= 2 {
      StoredBaseline(stops[..|stops| - 1], inherited);
    }
  }

  /** The two lists are exactly what changed between `was` and `now`, and what went. */
  ghost predicate Exact(t: Track, was: seq<Bind>, now: seq<Bind>) {
    forall x: Text ::
      && (x in t.changed <==> Lookup(now, x).Some? && Lookup(was, x) != Lookup(now, x))
      && (x in t.removed <==> Lookup(was, x).Some? && Lookup(now, x).None?)
  }

  /** When complete, `changed` and `removed` are exactly the difference of the two full scans,
      sorted: names new or with another value, and names gone. */
  lemma CompleteIsExact(stops: seq<Stop>, inherited: set<Text>)
    requires stops != [] && TrackAll(stops, inherited).changedComplete
    ensures Comparable(stops, inherited)
    ensures var t := TrackAll(stops, inherited); var n := |stops|;
            var was, now := FullScan(stops[n - 2], inherited), FullScan(stops[n - 1], inherited);
            StrictlySorted(t.changed) && StrictlySorted(t.removed) && Exact(t, was, now)
  {
    hide Cut, Scan, Differing, Gone, TrackAll, StrictlySorted, Lookup, HasKept, HasGone;
    CompleteIff(stops, inherited);
    var n := |stops|;
    var was, now := FullScan(stops[n - 2], inherited), FullScan(stops[n - 1], inherited);
    StoredBaseline(stops[..n - 1], inherited);
    CompletePair(stops, inherited);
    ScanIsGood(stops[n - 1].props, inherited);
    ScanIsGood(stops[n - 2].props, inherited);
    CutOfScan(was, inherited);
    CutOfScan(now, inherited);
    DifferingIs(Cut(now), Cut(was), inherited, true);
    GoneIs(Cut(was), Cut(now), inherited);
    ChangedMeans(Cut(now), Cut(was), true);
    GoneMeans(Cut(was), Cut(now));
    MutualLookup(Cut(now), now);
    MutualLookup(Cut(was), was);
  }

  lemma MutualLookup(a: seq<Bind>, b: seq<Bind>)
    requires Agrees(a, b) && Agrees(b, a)
    ensures forall x: Text :: Lookup(a, x) == Lookup(b, x)
  {
    hide Lookup;
    forall x: Text
      ensures Lookup(a, x) == Lookup(b, x)
    {
      assert Lookup(b, x).Some? ==> Lookup(a, x) == Lookup(b, x);
    }
  }

  lemma CompletePair(stops: seq<Stop>, inherited: set<Text>)
    requires Comparable(stops, inherited)
    ensures var t := TrackAll(stops, inherited); var n := |stops|;
            var was, now := Cut(FullScan(stops[n - 2], inherited)), Cut(FullScan(stops[n - 1], inherited));
            t.changed == Differing(now, was, inherited, true) && t.removed == Gone(was, now, inherited)
  {
    hide Cut, Scan, Differing, Gone;
    StoredBaseline(stops[..|stops| - 1], inherited);
  }

  lemma ChangedMeans(cur: seq<Bind>, last: seq<Bind>, newToo: bool)
    requires DistinctNames(cur)
    ensures forall x: Text :: HasKept(cur, last, newToo, x) <==>
              Lookup(cur, x).Some? && Lookup(cur, x) != Lookup(last, x) && (newToo || Lookup(last, x).Some?)
  {
    hide Lookup;
    forall x: Text
      ensures HasKept(cur, last, newToo, x) <==>
                Lookup(cur, x).Some? && Lookup(cur, x) != Lookup(last, x) && (newToo || Lookup(last, x).Some?)
    {
      if i :| 0 <= i < |cur| && cur[i].name == x && Kept(cur[i], last, newToo) {
        LookupIs(cur, i);
      }
      if Lookup(cur, x).Some? {
        var j := LookupFinds(cur, x);
        assert Kept(cur[j], last, newToo) <==> Lookup(cur, x) != Lookup(last, x) && (newToo || Lookup(last, x).Some?);
      }
    }
  }

  lemma GoneMeans(last: seq<Bind>, cur: seq<Bind>)
    ensures forall x: Text :: HasGone(last, cur, x) <==> Lookup(last, x).Some? && Lookup(cur, x).None?
  {
  }

  /** When not complete, a reported name certainly changed: it has one value in the full scan
      of this stop and another in that of the previous stop, in the same frame. */
  lemma PartialIsCertain(stops: seq<Stop>, inherited: set<Text>, x: Text)
    requires stops != [] && !TrackAll(stops, inherited).changedComplete && x in TrackAll(stops, inherited).changed
    ensures var n := |stops|;
            && n >= 2 && stops[n - 1].Scanned? && stops[n - 2].Scanned? && stops[n - 1].func == stops[n - 2].func
            && var was, now := Lookup(FullScan(stops[n - 2], inherited), x), Lookup(FullScan(stops[n - 1], inherited), x);
               was.Some? && now.Some? && was != now
  {
    hide Cut, Scan, Gone, Lookup, StrictlySorted, HasKept;
    var n := |stops|;
    StoredBaseline(stops, inherited);
    if n >= 2 {
      StoredBaseline(stops[..n - 1], inherited);
      var t := TrackAll(stops[..n - 1], inherited);
      PartialPair(stops, inherited, x);
      var now := FullScan(stops[n - 1], inherited);
      ScanIsGood(stops[n - 1].props, inherited);
      CutOfScan(now, inherited);
      DifferingIs(Cut(now), t.top.value, inherited, false);
      ChangedMeans(Cut(now), t.top.value, false);
      NoLookup(x);
      if stops[n - 2].Scanned? {
        ScanIsGood(stops[n - 2].props, inherited);
        CutOfScan(FullScan(stops[n - 2], inherited), inherited);
      }
    }
  }

  lemma NoLookup(x: Text)
    ensures Lookup([], x).None?
  {
  }

  lemma PartialPair(stops: seq<Stop>, inherited: set<Text>, x: Text)
    requires |stops| >= 2 && !TrackAll(stops, inherited).changedComplete && x in TrackAll(stops, inherited).changed
    ensures var n := |stops|; var t := TrackAll(stops[..n - 1], inherited);
            && stops[n - 1].Scanned? && t.top.Some? && t.func == Some(stops[n - 1].func)
            && TrackAll(stops, inherited).changed ==
                 Differing(Cut(FullScan(stops[n - 1], inherited)), t.top.value, inherited, false)
  {
    hide Cut, Scan, Gone, Differing;
  }

  // ---- locals named like inherited properties ----

  lemma {:induction false} LookupSnoc(front: seq<Bind>, b: Bind, x: Text)
    ensures Lookup(front + [b], x) ==
              if Lookup(front, x).Some? then Lookup(front, x) else if b.name == x then Some(b.val) else None
  {
    if front == [] {
      assert front + [b] == [b] && [b][1..] == [];
    } else {
      LookupSnoc(front[1..], b, x);
      assert (front + [b])[1..] == front[1..] + [b];
    }
  }

  /** The scan is the locals without those named like an inherited property. */
  lemma {:induction false} ScanHidesInherited(props: seq<Prop>, inherited: set<Text>, x: Text)
    ensures Lookup(Scan(props, inherited), x) == if x in inherited then None else Lookup(Scan(props, {}), x)
    decreases |props|
  {
    hide Lookup;
    if props == [] {
      NoLookup(x);
    } else {
      var front, p := props[..|props| - 1], props[|props| - 1];
      ScanHidesInherited(front, inherited, x);
      ScanHidesInherited(front, inherited, p.name);
      if p.val.Some? {
        LookupSnoc(Scan(front, inherited), Bind(p.name, p.val.value), x);
        LookupSnoc(Scan(front, {}), Bind(p.name, p.val.value), x);
      }
    }
  }

  lemma LocalsHide(s: Stop, inherited: set<Text>)
    requires s.Scanned?
    ensures forall x: Text :: Lookup(FullScan(s, inherited), x) == if x in inherited then None else Lookup(Locals(s), x)
  {
    hide Lookup, Scan;
    forall x: Text
      ensures Lookup(FullScan(s, inherited), x) == if x in inherited then None else Lookup(Locals(s), x)
    {
      ScanHidesInherited(s.props, inherited, x);
    }
  }

  lemma HidingKeepsExactIff(t: Track, was: seq<Bind>, now: seq<Bind>, allWas: seq<Bind>, allNow: seq<Bind>, hidden: set<Text>)
    requires Exact(t, was, now)
    requires forall x: Text :: Lookup(was, x) == if x in hidden then None else Lookup(allWas, x)
    requires forall x: Text :: Lookup(now, x) == if x in hidden then None else Lookup(allNow, x)
    ensures Exact(t, allWas, allNow) <==> forall x | x in hidden :: Lookup(allWas, x) == Lookup(allNow, x)
  {
    hide Lookup;
    if Exact(t, allWas, allNow) {
      forall x | x in hidden
        ensures Lookup(allWas, x) == Lookup(allNow, x)
      {
        assert Lookup(was, x).None? && Lookup(now, x).None?;
        assert x !in t.changed && x !in t.removed;
      }
    }
  }

  /** A list flagged complete is exact for the frame's locals exactly when no local named like
      an inherited property appeared, changed or went. */
  lemma CompleteIsExactIff(stops: seq<Stop>, inherited: set<Text>)
    requires stops != [] && TrackAll(stops, inherited).changedComplete
    ensures Comparable(stops, inherited)
    ensures var n := |stops|; var was, now := Locals(stops[n - 2]), Locals(stops[n - 1]);
            Exact(TrackAll(stops, inherited), was, now) <==> forall x | x in inherited :: Lookup(was, x) == Lookup(now, x)
  {
    hide Scan, TrackAll, StrictlySorted, Lookup, FullScan, Locals, Exact;
    CompleteIsExact(stops, inherited);
    var n := |stops|;
    LocalsHide(stops[n - 2], inherited);
    LocalsHide(stops[n - 1], inherited);
    HidingKeepsExactIff(TrackAll(stops, inherited), FullScan(stops[n - 2], inherited), FullScan(stops[n - 1], inherited),
      Locals(stops[n - 2]), Locals(stops[n - 1]), inherited);
  }
}
