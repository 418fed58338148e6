/** The log file: the latest 2000 lines, and a count of the lines evicted before them. */
module LogRing {
  import opened Wrappers
  import opened Utf16

  const MAX_LOG_LINES: nat := 2000
  const DEFAULT_TAIL: nat := 50
  const MAX_TAIL: nat := 500
  const NL: CodeUnit := 10

  // ---- lines and text ----

  /** Each line followed by a newline. */
  function Joined(lines: seq<Text>): Text {
    if lines == [] then [] else lines[0] + [NL] + Joined(lines[1..])
  }

  /** split('\n'): the pieces between newlines, at least one. */
  function Split(text: Text): (r: seq<Text>)
    ensures |r| >= 1
  {
    if text == [] then [[]]
    else
      var rest := Split(text[1..]);
      if text[0] == NL then [[]] + rest else [[text[0]] + rest[0]] + rest[1..]
  }

  /** The file's lines: a final empty piece is not a line. */
  function LinesOf(text: Text): seq<Text> {
    var p := Split(text);
    if p[|p| - 1] == [] then p[..|p| - 1] else p
  }

  ghost predicate OneLine(line: Text) {
    NL !in line
  }

  ghost predicate AllOneLine(lines: seq<Text>) {
    forall i | 0 <= i < |lines| :: OneLine(lines[i])
  }

  lemma {:induction false} SplitLine(line: Text, rest: Text)
    requires OneLine(line)
    ensures Split(line + [NL] + rest) == [line] + Split(rest)
    decreases |line|
  {
    var text := line + [NL] + rest;
    if line == [] {
      assert text[1..] == rest;
    } else {
      assert text[1..] == line[1..] + [NL] + rest;
      SplitLine(line[1..], rest);
      assert [line[0]] + line[1..] == line;
    }
  }

  /** Reading back what was written gives the same lines, empty ones included. */
  lemma {:induction false} LinesRoundTrip(lines: seq<Text>)
    requires AllOneLine(lines)
    ensures Split(Joined(lines)) == lines + [[]] && LinesOf(Joined(lines)) == lines
  {
    if lines != [] {
      LinesRoundTrip(lines[1..]);
      SplitLine(lines[0], Joined(lines[1..]));
      assert lines == [lines[0]] + lines[1..];
    }
    var p := Split(Joined(lines));
    assert p == lines + [[]];
    assert p[..|p| - 1] == lines;
  }

  lemma {:induction false} JoinedAppend(a: seq<Text>, b: seq<Text>)
    ensures Joined(a + b) == Joined(a) + Joined(b)
  {
    if a == [] {
      assert a + b == b;
    } else {
      assert (a + b)[1..] == a[1..] + b;
      JoinedAppend(a[1..], b);
      assert a[0] + [NL] + (Joined(a[1..]) + Joined(b)) == (a[0] + [NL] + Joined(a[1..])) + Joined(b);
    }
  }

  /** slice(-n) */
  function Last<T>(s: seq<T>, n: nat): (r: seq<T>)
    ensures |r| == if |s| <= n then |s| else n
  {
    if |s| <= n then s else s[|s| - n..]
  }

  // ---- the ring ----

  datatype Ring = Ring(file: Text, count: nat, dropped: nat)

  /** The state after every line ever appended, oldest first. */
  ghost function Holding(all: seq<Text>): Ring {
    var kept := Last(all, MAX_LOG_LINES);
    Ring(Joined(kept), |kept|, |all| - |kept|)
  }

  /** What the disk does with one request. */
  datatype Disk = Disk(readable: bool, writable: bool)

  /** One append: room left, or a rewrite of the lines that stay. A rewrite never reports
      failure, so the counters move even when the file does not. */
  function AppendTo(ring: Ring, parts: seq<Text>, disk: Disk): Ring {
    if parts == [] then ring
    else if ring.count + |parts| <= MAX_LOG_LINES then
      if disk.writable then ring.(file := ring.file + Joined(parts), count := ring.count + |parts|) else ring
    else
      var lines := (if disk.readable then LinesOf(ring.file) else []) + parts;
      var kept := Last(lines, MAX_LOG_LINES);
      Ring(if disk.writable then Joined(kept) else ring.file, |kept|, ring.dropped + (|lines| - |kept|))
  }

  /** What `logs` reports. */
  datatype LogsReply = LogsReply(total: nat, truncated: bool, dropped: nat, lines: seq<Text>)

  /** The requested tail; None when missing or not a number. */
  function Tail(requested: Option<int>): nat {
    match requested
    case None => DEFAULT_TAIL
    case Some(n) => if n < 0 then 0 else if n > MAX_TAIL then MAX_TAIL else n
  }

  function Report(ring: Ring, requested: Option<int>): LogsReply {
    var lines, tail := LinesOf(ring.file), Tail(requested);
    LogsReply(|lines|, |lines| > tail || ring.dropped > 0, ring.dropped, Last(lines, tail))
  }

  class Log {
    var file: Text
    var logCount: nat
    var logDropped: nat

    function State(): Ring
      reads this
    {
      Ring(file, logCount, logDropped)
    }

    constructor ()
      ensures State() == Holding([])
    {
      file, logCount, logDropped := [], 0, 0;
    }

    /** _appendLogParts */
    method AppendParts(parts: seq<Text>, disk: Disk)
      modifies this
      ensures State() == AppendTo(old(State()), parts, disk)
    {
      hide Joined, LinesOf;
      if parts == [] {
        return;
      }
      if logCount + |parts| <= MAX_LOG_LINES {
        if disk.writable {
          file := file + Joined(parts);
          logCount := logCount + |parts|;
        }
        return;
      }
      var kept := if disk.readable then LinesOf(file) else [];
      kept := kept + parts;
      var evicted := |kept| - MAX_LOG_LINES;
      if evicted > 0 {
        kept := kept[evicted..];
        logDropped := logDropped + evicted;
      }
      WriteFile(Joined(kept), disk.writable);
      logCount := |kept|;
    }

    /** writeFile: best effort, without a report. */
    method WriteFile(content: Text, writable: bool)
      modifies this`file
      ensures file == if writable then content else old(file)
    {
      if writable {
        file := content;
      }
    }

    /** The `logs` command. */
    method Logs(requested: Option<int>) returns (r: LogsReply)
      ensures r == Report(State(), requested)
    {
      hide LinesOf;
      var tail := Tail(requested);
      var lines := LinesOf(file);
      r := LogsReply(|lines|, |lines| > tail || logDropped > 0, logDropped,
        if tail == 0 then [] else if |lines| <= tail then lines else lines[|lines| - tail..]);
      assert tail == 0 ==> lines[|lines|..] == [];
    }
  }

  // ---- what the ring holds ----

  /** On a working disk the file is exactly the last 2000 lines ever appended, in order, and
      the counters add up to all of them. */
  lemma AppendKeepsTheLatest(all: seq<Text>, parts: seq<Text>)
    requires AllOneLine(all) && AllOneLine(parts)
    ensures AppendTo(Holding(all), parts, Disk(true, true)) == Holding(all + parts)
    ensures AllOneLine(all + parts)
  {
    hide Joined, LinesOf;
    var kept := Last(all, MAX_LOG_LINES);
    if parts == [] {
      assert all + parts == all;
    } else if |kept| + |parts| <= MAX_LOG_LINES {
      assert kept == all;
      JoinedAppend(all, parts);
    } else {
      LinesRoundTrip(kept);
      Evict(all, parts);
    }
  }

  /** Evicting from the kept lines and the new ones is evicting from all lines ever. */
  lemma Evict(all: seq<Text>, parts: seq<Text>)
    ensures Last(Last(all, MAX_LOG_LINES) + parts, MAX_LOG_LINES) == Last(all + parts, MAX_LOG_LINES)
  {
  }

  /** Different lines give different files. */
  lemma JoinedInjective(a: seq<Text>, b: seq<Text>)
    requires AllOneLine(a) && AllOneLine(b)
    ensures Joined(a) == Joined(b) <==> a == b
  {
    hide Joined, LinesOf;
    LinesRoundTrip(a);
    LinesRoundTrip(b);
  }

  predicate Overflows(all: seq<Text>, parts: seq<Text>) {
    |Last(all, MAX_LOG_LINES)| + |parts| > MAX_LOG_LINES
  }

  /** Nothing to append; or a disk that writes and, on overflow, reads or has nothing to read;
      or an overflow whose newest 2000 lines are the old ones again. */
  predicate DiskSuffices(all: seq<Text>, parts: seq<Text>, disk: Disk) {
    || parts == []
    || (disk.writable && (!Overflows(all, parts) || disk.readable || all == []))
    || (!disk.writable && Overflows(all, parts) && disk.readable
        && Last(all + parts, MAX_LOG_LINES) == Last(all, MAX_LOG_LINES))
  }

  /** One append leaves exactly the last 2000 lines ever appended and counters that say so
      precisely in these cases, over every behaviour of the disk. */
  lemma AppendExactIff(all: seq<Text>, parts: seq<Text>, disk: Disk)
    requires AllOneLine(all) && AllOneLine(parts)
    ensures AppendTo(Holding(all), parts, disk) == Holding(all + parts) <==> DiskSuffices(all, parts, disk)
    ensures AllOneLine(all + parts)
  {
    hide Joined, LinesOf;
    var kept := Last(all, MAX_LOG_LINES);
    AppendKeepsTheLatest(all, parts);
    if parts != [] && Overflows(all, parts) {
      LinesRoundTrip(kept);
      Evict(all, parts);
      JoinedInjective(kept, Last(all + parts, MAX_LOG_LINES));
      assert [] + parts == parts;
      assert all == [] ==> all + parts == parts;
    }
  }

  /** A rewrite that cannot read the file loses the earlier lines without counting them: it is
      right only if there were none. */
  lemma UnreadableRewriteIff(all: seq<Text>, parts: seq<Text>)
    requires AllOneLine(all) && AllOneLine(parts) && parts != [] && |all| + |parts| > MAX_LOG_LINES
    ensures AppendTo(Holding(all), parts, Disk(false, true)) == Holding(all + parts) <==> all == []
  {
    AppendExactIff(all, parts, Disk(false, true));
  }

  /** What a rewrite that did not suffice leaves. On a readable disk the counters still add up
      to every line ever appended, but the file keeps the old lines and lacks the new ones;
      on an unreadable one the counters miss exactly the lines that were in the file. */
  lemma FailedRewriteCounts(all: seq<Text>, parts: seq<Text>, disk: Disk)
    requires AllOneLine(all) && AllOneLine(parts) && parts != [] && Overflows(all, parts)
    ensures var was, r := Holding(all), AppendTo(Holding(all), parts, disk);
            && (!disk.writable ==> r.file == was.file)
            && (disk.readable ==> r.count == MAX_LOG_LINES && r.count + r.dropped == |all| + |parts|)
            && (!disk.readable ==> r.count + r.dropped == |all| + |parts| - was.count)
            && was.dropped <= r.dropped <= was.dropped + |parts|
  {
    hide Joined, LinesOf;
    LinesRoundTrip(Last(all, MAX_LOG_LINES));
    assert |[] + parts| == |parts|;
  }

  // ---- whole runs ----

  datatype Request = Request(parts: seq<Text>, disk: Disk)

  function Flat(requests: seq<Request>): seq<Text>
    decreases |requests|
  {
    if requests == [] then [] else Flat(requests[..|requests| - 1]) + requests[|requests| - 1].parts
  }

  function Run(requests: seq<Request>): Ring
    decreases |requests|
  {
    if requests == [] then Ring([], 0, 0)
    else AppendTo(Run(requests[..|requests| - 1]), requests[|requests| - 1].parts, requests[|requests| - 1].disk)
  }

  ghost predicate OneLineRequests(requests: seq<Request>) {
    forall i | 0 <= i < |requests| :: AllOneLine(requests[i].parts)
  }

  ghost predicate RightAt(requests: seq<Request>, n: nat)
    requires n <= |requests|
  {
    Run(requests[..n]) == Holding(Flat(requests[..n]))
  }

  predicate SufficesAt(requests: seq<Request>, n: nat)
    requires n < |requests|
  {
    DiskSuffices(Flat(requests[..n]), requests[n].parts, requests[n].disk)
  }

  lemma NextRequest(requests: seq<Request>, n: nat)
    requires n < |requests|
    ensures Run(requests[..n + 1]) == AppendTo(Run(requests[..n]), requests[n].parts, requests[n].disk)
    ensures Flat(requests[..n + 1]) == Flat(requests[..n]) + requests[n].parts
  {
    assert requests[..n + 1][..n] == requests[..n];
  }

  lemma {:induction false} FlatOneLine(requests: seq<Request>, n: nat)
    requires OneLineRequests(requests) && n <= |requests|
    ensures AllOneLine(Flat(requests[..n]))
    decreases n
  {
    hide OneLine;
    if n > 0 {
      FlatOneLine(requests, n - 1);
      NextRequest(requests, n - 1);
    }
  }

  lemma {:induction false} RightUpTo(requests: seq<Request>, n: nat)
    requires OneLineRequests(requests) && n <= |requests| && forall i | 0 <= i < n :: SufficesAt(requests, i)
    ensures RightAt(requests, n)
    decreases n
  {
    hide DiskSuffices, AppendTo, Joined;
    if n == 0 {
      StartsEmpty();
    } else {
      RightUpTo(requests, n - 1);
      FlatOneLine(requests, n - 1);
      NextRequest(requests, n - 1);
      AppendExactIff(Flat(requests[..n - 1]), requests[n - 1].parts, requests[n - 1].disk);
      assert SufficesAt(requests, n - 1);
    }
  }

  lemma StartsEmpty()
    ensures Run([]) == Holding([]) && Flat([]) == []
  {
  }

  /** Over every sequence of appends on any disk, the ring is right all along exactly when every
      single append met the condition. */
  lemma RunRightIff(requests: seq<Request>)
    requires OneLineRequests(requests)
    ensures (forall n | 0 <= n <= |requests| :: RightAt(requests, n)) <==> forall n | 0 <= n < |requests| :: SufficesAt(requests, n)
  {
    hide DiskSuffices, AppendTo, Joined;
    if forall n | 0 <= n < |requests| :: SufficesAt(requests, n) {
      forall n | 0 <= n <= |requests|
        ensures RightAt(requests, n)
      {
        RightUpTo(requests, n);
      }
    }
    if forall n | 0 <= n <= |requests| :: RightAt(requests, n) {
      forall n | 0 <= n < |requests|
        ensures SufficesAt(requests, n)
      {
        assert RightAt(requests, n) && RightAt(requests, n + 1);
        FlatOneLine(requests, n);
        NextRequest(requests, n);
        AppendExactIff(Flat(requests[..n]), requests[n].parts, requests[n].disk);
      }
    }
  }

  // ---- what the counters say whatever the disk did ----

  /** The file is made of whole lines. */
  ghost predicate Lined(ring: Ring) {
    Joined(LinesOf(ring.file)) == ring.file && AllOneLine(LinesOf(ring.file))
  }

  /** The file holds no more lines than counted, and the counters no more than were appended. */
  ghost predicate Bounded(ring: Ring, total: nat) {
    |LinesOf(ring.file)| <= ring.count <= MAX_LOG_LINES && ring.count + ring.dropped <= total
  }

  /** A rewrite that neither reads nor writes forgets the lines in the file: they stay there
      uncounted when they are more than the new ones. */
  predicate Forgets(ring: Ring, parts: seq<Text>, disk: Disk) {
    && parts != [] && ring.count + |parts| > MAX_LOG_LINES && !disk.readable && !disk.writable
    && |LinesOf(ring.file)| > |Last(parts, MAX_LOG_LINES)|
  }

  lemma AppendLines(ring: Ring, parts: seq<Text>, disk: Disk)
    requires Lined(ring) && AllOneLine(parts)
    ensures var r := AppendTo(ring, parts, disk); var lines := LinesOf(ring.file);
            && Lined(r)
            && LinesOf(r.file) ==
                 if parts == [] || !disk.writable then lines
                 else if ring.count + |parts| <= MAX_LOG_LINES then lines + parts
                 else Last((if disk.readable then lines else []) + parts, MAX_LOG_LINES)
  {
    hide Joined, LinesOf, OneLine;
    var lines := LinesOf(ring.file);
    JoinedAppend(lines, parts);
    LinesRoundTrip(lines + parts);
    var all := (if disk.readable then lines else []) + parts;
    LinesRoundTrip(Last(all, MAX_LOG_LINES));
  }

  /** One append keeps these bounds exactly when it does not forget the file. */
  lemma AppendBoundedIff(ring: Ring, parts: seq<Text>, disk: Disk, total: nat)
    requires Lined(ring) && AllOneLine(parts) && Bounded(ring, total)
    ensures Bounded(AppendTo(ring, parts, disk), total + |parts|) <==> !Forgets(ring, parts, disk)
    ensures Lined(AppendTo(ring, parts, disk))
  {
    hide Joined, LinesOf, OneLine, Lined;
    AppendLines(ring, parts, disk);
  }

  ghost predicate BoundedAt(requests: seq<Request>, n: nat)
    requires n <= |requests|
  {
    Bounded(Run(requests[..n]), |Flat(requests[..n])|)
  }

  predicate ForgetsAt(requests: seq<Request>, n: nat)
    requires n < |requests|
  {
    Forgets(Run(requests[..n]), requests[n].parts, requests[n].disk)
  }

  lemma {:induction false} RunLined(requests: seq<Request>, n: nat)
    requires OneLineRequests(requests) && n <= |requests|
    ensures Lined(Run(requests[..n]))
    decreases n
  {
    hide AppendTo, Lined, OneLine;
    if n == 0 {
      EmptyLined();
    } else {
      RunLined(requests, n - 1);
      NextRequest(requests, n - 1);
      AppendLines(Run(requests[..n - 1]), requests[n - 1].parts, requests[n - 1].disk);
    }
  }

  lemma EmptyLined()
    ensures Lined(Run([])) && Bounded(Run([]), |Flat([])|)
  {
  }

  lemma {:induction false} BoundedUpTo(requests: seq<Request>, n: nat)
    requires OneLineRequests(requests) && n <= |requests| && forall i | 0 <= i < n :: !ForgetsAt(requests, i)
    ensures BoundedAt(requests, n)
    decreases n
  {
    hide AppendTo, Lined, OneLine, Forgets, Bounded;
    if n == 0 {
      EmptyLined();
    } else {
      BoundedUpTo(requests, n - 1);
      RunLined(requests, n - 1);
      NextRequest(requests, n - 1);
      AppendBoundedIff(Run(requests[..n - 1]), requests[n - 1].parts, requests[n - 1].disk, |Flat(requests[..n - 1])|);
      assert !ForgetsAt(requests, n - 1);
    }
  }

  /** Over every sequence of appends on any disk, the file never exceeds the counted lines and
      the counters never exceed the lines ever appended, all along, exactly when no rewrite
      forgets the file. */
  lemma RunBoundedIff(requests: seq<Request>)
    requires OneLineRequests(requests)
    ensures (forall n | 0 <= n <= |requests| :: BoundedAt(requests, n)) <==> forall n | 0 <= n < |requests| :: !ForgetsAt(requests, n)
  {
    hide AppendTo, Lined, OneLine, Forgets, Bounded;
    if forall n | 0 <= n < |requests| :: !ForgetsAt(requests, n) {
      forall n | 0 <= n <= |requests|
        ensures BoundedAt(requests, n)
      {
        BoundedUpTo(requests, n);
      }
    }
    if forall n | 0 <= n <= |requests| :: BoundedAt(requests, n) {
      forall n | 0 <= n < |requests|
        ensures !ForgetsAt(requests, n)
      {
        assert BoundedAt(requests, n) && BoundedAt(requests, n + 1);
        RunLined(requests, n);
        NextRequest(requests, n);
        AppendBoundedIff(Run(requests[..n]), requests[n].parts, requests[n].disk, |Flat(requests[..n])|);
      }
    }
  }

  /** `logs` returns the true last lines, up to the tail and the ring, and says truncated exactly
      when some line ever appended is not among them. */
  lemma LogsTellTheTruth(all: seq<Text>, requested: Option<int>)
    requires AllOneLine(all)
    ensures var r := Report(Holding(all), requested);
            && r.lines == Last(all, Tail(requested))
            && r.total + r.dropped == |all| && r.total <= MAX_LOG_LINES
            && (r.truncated <==> |r.lines| < |all|)
  {
    hide Joined, LinesOf;
    LinesRoundTrip(Last(all, MAX_LOG_LINES));
  }
}
