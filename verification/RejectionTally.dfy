/**
 How refused authentications are folded: one report per source and window, each carrying
 how many refusals it covers, in a map that is kept from growing.

 Instants are nanoseconds since the zero time, which the code also uses for "none yet".
 The order in which a map is walked is a parameter of the specification.
 */
module RejectionTally {
  import opened Prelude
  import opened Sets
  import History = Runs

  type Instant = nat

  const WINDOW := 60_000_000_000
  const MAX_SOURCES := 4096

  datatype Count = Count(refusals: nat, credentials: nat)

  function Sum(a: Count, b: Count): Count {
    Count(a.refusals + b.refusals, a.credentials + b.credentials)
  }

  const NONE := Count(0, 0)

  /** What a source has accumulated since its last report. */
  datatype Run = Run(openedAt: Instant, folded: Count)

  type Runs = map<string, Run>

  /** A figure for every source. */
  type Counts = string -> Count

  /** The runs held, and when each source was last reported. */
  datatype Tally = Tally(runs: Runs, lastReport: map<string, Instant>)

  /** The books kept on a tally: what was observed, what was reported, and what eviction discarded. */
  datatype Books = Books(observed: Counts, reported: Counts, discarded: Counts)

  const EMPTY := Tally(map[], map[])
  const BLANK := Books(_ => NONE, _ => NONE, _ => NONE)

  function Add(m: Counts, source: string, c: Count): Counts {
    key => if key == source then Sum(m(key), c) else m(key)
  }

  function Folded(runs: Runs, key: string): Count {
    if key in runs then runs[key].folded else NONE
  }

  // Eviction

  predicate Open(run: Run, now: Instant) {
    now - run.openedAt < WINDOW
  }

  function OpenRuns(runs: Runs, now: Instant): Runs {
    map key | key in runs && Open(runs[key], now) :: runs[key]
  }

  /** The walk's choice: a run replaces the choice so far when it is older or the choice has no instant. */
  function Choose(runs: Runs, order: seq<string>): (string, Instant) {
    if |order| == 0 then ("", 0)
    else
      var chosen, key := Choose(runs, order[..|order| - 1]), order[|order| - 1];
      if chosen.1 == 0 || OpenedAt(runs, key) < chosen.1 then (key, OpenedAt(runs, key)) else chosen
  }

  function OpenedAt(runs: Runs, key: string): Instant {
    if key in runs then runs[key].openedAt else 0
  }

  /** order is one way to walk the keys of runs. */
  ghost predicate Walks(runs: Runs, order: seq<string>) {
    (forall key :: key in order <==> key in runs) && forall i, j :: 0 <= i < j < |order| ==> order[i] != order[j]
  }

  function Evicted(runs: Runs, now: Instant, order: seq<string>): Runs {
    var open := OpenRuns(runs, now);
    if |runs| < MAX_SOURCES then runs
    else if |open| >= MAX_SOURCES && Choose(open, order).0 != "" then open - {Choose(open, order).0}
    else open
  }

  /** The books after the runs of some keys were dropped. */
  function Dropped(discarded: Counts, runs: Runs, gone: set<string>): Counts {
    key => if key in gone then Sum(discarded(key), Folded(runs, key)) else discarded(key)
  }

  // Observation

  /** One when the refused request presented a credential, and zero when it had none. */
  type Bit = b: int | 0 <= b <= 1

  datatype Call = Call(now: Instant, key: string, credential: Bit, order: seq<string>) {
    function One(): Count {
      Count(1, credential)
    }
  }

  /** Whether a call goes unreported: its source has an open run, and it is folded into that. */
  predicate FoldsIn(t: Tally, c: Call) {
    c.key in t.runs && Open(t.runs[c.key], c.now)
  }

  /** What a call reports at once, if anything. */
  function Report(t: Tally, c: Call): Option<Count> {
    if FoldsIn(t, c) then None else Some(Sum(Folded(t.runs, c.key), c.One()))
  }

  /** The runs a reporting call starts from: all of them, or what eviction leaves for a new source. */
  function Kept(t: Tally, c: Call): Runs {
    if c.key in t.runs then t.runs else Evicted(t.runs, c.now, c.order)
  }

  /** A call is folded into the open run of its source, or reports and opens an empty one. */
  function Observed(t: Tally, c: Call): Tally {
    if FoldsIn(t, c) then
      t.(runs := t.runs[c.key := Run(t.runs[c.key].openedAt, Sum(t.runs[c.key].folded, c.One()))])
    else
      Tally(Kept(t, c)[c.key := Run(c.now, NONE)], t.lastReport[c.key := c.now])
  }

  function Booked(b: Books, t: Tally, c: Call): Books {
    var observed := Add(b.observed, c.key, c.One());
    if FoldsIn(t, c) then b.(observed := observed)
    else Books(observed, Add(b.reported, c.key, Sum(Folded(t.runs, c.key), c.One())),
               Dropped(b.discarded, t.runs, t.runs.Keys - Kept(t, c).Keys))
  }

  function After(calls: seq<Call>): Tally {
    History.Run(Observed, EMPTY, calls)
  }

  function BooksAfter(calls: seq<Call>): Books {
    if |calls| == 0 then BLANK
    else Booked(BooksAfter(calls[..|calls| - 1]), After(calls[..|calls| - 1]), calls[|calls| - 1])
  }

  /** Every call walks the map it finds. */
  ghost predicate Possible(calls: seq<Call>) {
    forall i :: 0 <= i < |calls| ==> WalksAt(calls, i)
  }

  ghost predicate WalksAt(calls: seq<Call>, i: nat)
    requires i < |calls|
  {
    Walks(OpenRuns(After(calls[..i]).runs, calls[i].now), calls[i].order)
  }

  // Conservation

  predicate Balance(observed: Count, reported: Count, folded: Count, discarded: Count) {
    observed.refusals == reported.refusals + folded.refusals + discarded.refusals &&
    observed.credentials == reported.credentials + folded.credentials + discarded.credentials
  }

  predicate Balanced(b: Books, runs: Runs, key: string) {
    Balance(b.observed(key), b.reported(key), Folded(runs, key), b.discarded(key))
  }

  lemma EvictedIsSubmap(runs: Runs, now: Instant, order: seq<string>)
    ensures var kept := Evicted(runs, now, order);
            kept.Keys <= runs.Keys && forall key <- kept :: kept[key] == runs[key]
  {
  }

  /** One more refusal, either kept in the run or reported with it, or the run given up. */
  lemma BalanceMoves(o: Count, r: Count, f: Count, d: Count, one: Count)
    requires Balance(o, r, f, d)
    ensures Balance(Sum(o, one), r, Sum(f, one), d)
    ensures Balance(Sum(o, one), Sum(r, Sum(f, one)), NONE, d)
    ensures Balance(o, r, NONE, Sum(d, f))
  {
  }

  /** What one call does to the figures of one source. */
  lemma BooksOfCall(b: Books, t: Tally, c: Call, key: string)
    ensures var after, runs := Booked(b, t, c), Observed(t, c).runs;
            var gone := !FoldsIn(t, c) && key in t.runs && key !in Kept(t, c);
            after.discarded(key) == (if gone then Sum(b.discarded(key), Folded(t.runs, key)) else b.discarded(key)) &&
            after.observed(key) == (if key == c.key then Sum(b.observed(key), c.One()) else b.observed(key)) &&
            after.reported(key) == (if key == c.key && !FoldsIn(t, c)
                                        then Sum(b.reported(key), Sum(Folded(t.runs, key), c.One())) else b.reported(key)) &&
            Folded(runs, key) == (if key == c.key then (if FoldsIn(t, c) then Sum(Folded(t.runs, key), c.One()) else NONE)
                                  else if gone then NONE else Folded(t.runs, key))
  {
    EvictedIsSubmap(t.runs, c.now, c.order);
  }

  lemma StepBalances(b: Books, t: Tally, c: Call, key: string)
    requires Balanced(b, t.runs, key)
    ensures Balanced(Booked(b, t, c), Observed(t, c).runs, key)
  {
    BooksOfCall(b, t, c, key);
    BalanceMoves(b.observed(key), b.reported(key), Folded(t.runs, key), b.discarded(key), c.One());
  }

  /**
   For every source, and over every sequence of calls, refusals and credentials observed
   are those reported, plus those in its open run, plus those eviction discarded.
   */
  lemma {:induction false} NothingIsLost(calls: seq<Call>, key: string)
    ensures Balanced(BooksAfter(calls), After(calls).runs, key)
  {
    if |calls| > 0 {
      var init := calls[..|calls| - 1];
      NothingIsLost(init, key);
      StepBalances(BooksAfter(init), After(init), calls[|calls| - 1], key);
    }
  }

  /** The report returned is what the books record as reported. */
  lemma ReportIsBooked(b: Books, t: Tally, c: Call)
    ensures Booked(b, t, c).reported ==
            match Report(t, c) case None => b.reported case Some(fold) => Add(b.reported, c.key, fold)
    ensures Report(t, c).None? <==> FoldsIn(t, c)
    ensures Report(t, c).Some? ==> Report(t, c).value.refusals >= 1
  {
  }

  // What goes unreported

  predicate OpenedAtReport(t: Tally) {
    forall key <- t.runs :: key in t.lastReport && t.lastReport[key] == t.runs[key].openedAt
  }

  lemma {:induction false} RunsOpenAtReports(calls: seq<Call>)
    ensures OpenedAtReport(After(calls))
  {
    if |calls| > 0 {
      var init, last := calls[..|calls| - 1], calls[|calls| - 1];
      RunsOpenAtReports(init);
      EvictedIsSubmap(After(init).runs, last.now, last.order);
    }
  }

  lemma {:induction false} LastReportIsACall(calls: seq<Call>, key: string)
    requires key in After(calls).lastReport
    ensures exists i :: 0 <= i < |calls| && calls[i].key == key && calls[i].now == After(calls).lastReport[key]
  {
    var n := |calls| - 1;
    if calls[n].key != key || Report(After(calls[..n]), calls[n]).None? {
      LastReportIsACall(calls[..n], key);
      var i :| 0 <= i < n && calls[..n][i].key == key && calls[..n][i].now == After(calls[..n]).lastReport[key];
      assert calls[i] == calls[..n][i];
    }
  }

  /**
   A refusal goes unreported only when the same source was reported less than a window
   earlier; with a clock that does not go back, that report was not in the future.
   */
  lemma {:induction false} UnreportedOnlyWithinWindow(calls: seq<Call>, c: Call)
    ensures var t := After(calls);
            FoldsIn(t, c) ==>
              c.key in t.lastReport && c.now - t.lastReport[c.key] < WINDOW &&
              ((forall i :: 0 <= i < |calls| ==> calls[i].now <= c.now) ==> t.lastReport[c.key] <= c.now)
  {
    RunsOpenAtReports(calls);
    if c.key in After(calls).lastReport {
      LastReportIsACall(calls, c.key);
    }
  }

  /** As long as a source is held, its refusals are folded exactly while its last report is less than a window old. */
  lemma {:induction false} FoldedExactlyWithinWindow(calls: seq<Call>, c: Call)
    ensures var t := After(calls);
            FoldsIn(t, c) <==> c.key in t.runs && c.key in t.lastReport && c.now - t.lastReport[c.key] < WINDOW
  {
    RunsOpenAtReports(calls);
  }

  /** The first refusal of a source is always reported at once. */
  lemma {:induction false} FirstIsReported(calls: seq<Call>, c: Call)
    requires forall i :: 0 <= i < |calls| ==> calls[i].key != c.key
    ensures Report(After(calls), c) == Some(c.One())
  {
    if c.key in After(calls).runs {
      RunsOpenAtReports(calls);
      LastReportIsACall(calls, c.key);
      assert false;
    }
  }

  // The bound

  lemma {:induction false} ChoiceIsWalked(runs: Runs, order: seq<string>)
    requires |order| > 0
    ensures Choose(runs, order).0 in order && Choose(runs, order).1 == OpenedAt(runs, Choose(runs, order).0)
  {
    if |order| > 1 {
      ChoiceIsWalked(runs, order[..|order| - 1]);
    }
  }

  /** The map is full of open runs and the walk has settled on the key that is empty. */
  predicate Stuck(runs: Runs, now: Instant, order: seq<string>) {
    |OpenRuns(runs, now)| >= MAX_SOURCES && Choose(OpenRuns(runs, now), order).0 == ""
  }

  lemma OpenIsSubset(runs: Runs, now: Instant)
    ensures |OpenRuns(runs, now)| <= |runs|
  {
    assert OpenRuns(runs, now).Keys <= runs.Keys;
    SubsetIsNoLarger(OpenRuns(runs, now).Keys, runs.Keys);
  }

  lemma EvictionMakesRoom(runs: Runs, now: Instant, order: seq<string>)
    requires |runs| <= MAX_SOURCES && Walks(OpenRuns(runs, now), order)
    ensures |Evicted(runs, now, order)| < MAX_SOURCES <==> !Stuck(runs, now, order)
    ensures |Evicted(runs, now, order)| <= MAX_SOURCES
  {
    var open := OpenRuns(runs, now);
    OpenIsSubset(runs, now);
    if |open| >= MAX_SOURCES {
      var k :| k in open;
      assert |order| > 0;
      ChoiceIsWalked(open, order);
      var chosen := Choose(open, order).0;
      assert (open - {chosen}).Keys == open.Keys - {chosen};
    }
  }

  /** One call keeps the map within bounds exactly when it is not stuck on the empty key. */
  lemma BoundIsKept(t: Tally, c: Call)
    requires |t.runs| <= MAX_SOURCES && Walks(OpenRuns(t.runs, c.now), c.order)
    ensures |Observed(t, c).runs| <= MAX_SOURCES <==> !(c.key !in t.runs && Stuck(t.runs, c.now, c.order))
  {
    EvictionMakesRoom(t.runs, c.now, c.order);
    EvictedIsSubmap(t.runs, c.now, c.order);
    if c.key in t.runs {
      var run := if Open(t.runs[c.key], c.now) then Run(t.runs[c.key].openedAt, Sum(t.runs[c.key].folded, c.One()))
                 else Run(c.now, NONE);
      assert t.runs[c.key := run].Keys == t.runs.Keys;
    } else {
      var kept := Evicted(t.runs, c.now, c.order);
      assert kept[c.key := Run(c.now, NONE)].Keys == kept.Keys + {c.key};
    }
  }

  lemma NamedStaysBounded(t: Tally, c: Call)
    requires |t.runs| <= MAX_SOURCES && "" !in t.runs && c.key != "" && Walks(OpenRuns(t.runs, c.now), c.order)
    ensures |Observed(t, c).runs| <= MAX_SOURCES && "" !in Observed(t, c).runs
  {
    EvictedIsSubmap(t.runs, c.now, c.order);
    if |c.order| > 0 {
      ChoiceIsWalked(OpenRuns(t.runs, c.now), c.order);
    } else {
      assert OpenRuns(t.runs, c.now).Keys == {};
    }
    BoundIsKept(t, c);
  }

  /** Since every key the service builds names an event type, the map stays bounded for good. */
  lemma {:induction false} NeverMoreThanMaximum(calls: seq<Call>)
    requires Possible(calls) && forall i :: 0 <= i < |calls| ==> calls[i].key != ""
    ensures |After(calls).runs| <= MAX_SOURCES && "" !in After(calls).runs
  {
    if |calls| > 0 {
      var n := |calls| - 1;
      var init := calls[..n];
      forall i | 0 <= i < n
        ensures WalksAt(init, i) && init[i].key != ""
      {
        assert WalksAt(calls, i) && init[i] == calls[i] && init[..i] == calls[..i];
      }
      NeverMoreThanMaximum(init);
      assert WalksAt(calls, n);
      NamedStaysBounded(After(init), calls[n]);
    }
  }

  function Name(n: nat): string {
    seq(n, _ => 'a')
  }

  function Names(n: nat): set<string> {
    set i | 0 <= i < n :: Name(i)
  }

  lemma {:induction false} NamesAreMany(n: nat)
    ensures |Names(n)| == n
  {
    if n > 0 {
      NamesAreMany(n - 1);
      assert Names(n) == Names(n - 1) + {Name(n - 1)};
      assert forall s <- Names(n - 1) :: |s| < n - 1;
    }
  }

  function Crowd(n: nat): Runs {
    map key | key in Names(n) :: Run(if key == "" then 1 else 2, NONE)
  }

  function CrowdOrder(n: nat): seq<string> {
    seq(n, i requires i >= 0 => Name(i))
  }

  lemma NameIsNotB(i: nat)
    ensures Name(i) != "b"
  {
    if i == 1 {
      assert Name(i)[0] == 'a';
    }
  }

  lemma CrowdWalks(n: nat)
    ensures |Crowd(n)| == n && Walks(Crowd(n), CrowdOrder(n)) && "b" !in Crowd(n)
  {
    var runs, order := Crowd(n), CrowdOrder(n);
    NamesAreMany(n);
    assert runs.Keys == Names(n);
    forall i, j | 0 <= i < j < |order|
      ensures order[i] != order[j]
    {
      assert |order[i]| == i && |order[j]| == j;
    }
    forall key
      ensures key in order <==> key in runs
    {
      if key in runs {
        var i :| 0 <= i < n && key == Name(i);
        assert order[i] == key;
      }
    }
    forall i | 0 <= i < n
      ensures Name(i) != "b"
    {
      NameIsNotB(i);
    }
  }

  /** The first call names no source, and each later one a source of its own, a moment afterwards. */
  function CrowdCalls(n: nat): seq<Call> {
    seq(n, i requires i >= 0 => Call(if i == 0 then 1 else 2, Name(i), 0, CrowdOrder(i)))
  }

  lemma CrowdIsOpen(n: nat, now: Instant)
    requires now <= 3
    ensures OpenRuns(Crowd(n), now) == Crowd(n)
  {
  }

  lemma CrowdGrows(n: nat)
    ensures Name(n) !in Crowd(n) && Crowd(n + 1) == Crowd(n)[Name(n) := Run(if n == 0 then 1 else 2, NONE)]
  {
    assert Name(0) == "" && (n > 0 ==> Name(n) != "");
    assert forall s <- Names(n) :: |s| < n;
    assert Names(n + 1) == Names(n) + {Name(n)};
  }

  lemma {:induction false} CrowdIsReached(n: nat)
    requires n <= MAX_SOURCES
    ensures Possible(CrowdCalls(n)) && After(CrowdCalls(n)).runs == Crowd(n)
  {
    if n == 0 {
      assert Crowd(0) == map[];
    } else {
      var init, last := CrowdCalls(n - 1), CrowdCalls(n)[n - 1];
      assert CrowdCalls(n)[..n - 1] == init;
      CrowdIsReached(n - 1);
      CrowdGrows(n - 1);
      CrowdWalks(n - 1);
      CrowdIsOpen(n - 1, last.now);
      PossibleOneMore(CrowdCalls(n));
    }
  }

  lemma PossibleOneMore(calls: seq<Call>)
    requires |calls| > 0 && Possible(calls[..|calls| - 1])
    requires Walks(OpenRuns(After(calls[..|calls| - 1]).runs, calls[|calls| - 1].now), calls[|calls| - 1].order)
    ensures Possible(calls)
  {
    var init := calls[..|calls| - 1];
    forall i | 0 <= i < |init|
      ensures WalksAt(calls, i)
    {
      assert WalksAt(init, i) && init[i] == calls[i] && init[..i] == calls[..i];
    }
  }

  /** Calls from the start fill the map, the oldest source being the one with the empty name, and one more gets in. */
  lemma EmptyNameIsNeverEvicted(n: nat) returns (calls: seq<Call>, c: Call)
    requires n == MAX_SOURCES
    ensures Possible(calls + [c]) && |After(calls).runs| == MAX_SOURCES
    ensures |After(calls + [c]).runs| == MAX_SOURCES + 1
  {
    calls := CrowdCalls(n);
    CrowdIsReached(n);
    CrowdWalks(n);
    CrowdIsOpen(n, 3);
    var runs, order := Crowd(n), CrowdOrder(n);
    assert order[0] == "" && order[0] in runs;
    EmptyNameChosen(runs, order);
    c := Call(3, "b", 0, order);
    assert (calls + [c])[..|calls|] == calls;
    PossibleOneMore(calls + [c]);
    assert Evicted(runs, 3, order) == runs;
    assert runs["b" := Run(3, NONE)].Keys == runs.Keys + {"b"};
  }

  lemma {:induction false} EmptyNameChosen(runs: Runs, order: seq<string>)
    requires |order| > 0 && order[0] == "" && (forall key <- order :: key in runs)
    requires runs[""].openedAt == 1 && forall key <- order :: runs[key].openedAt >= 1
    ensures Choose(runs, order) == ("", 1)
  {
    if |order| > 1 {
      EmptyNameChosen(runs, order[..|order| - 1]);
    }
  }

  // Which run goes

  predicate Oldest(runs: Runs, order: seq<string>, at: Instant)
    requires forall key <- order :: key in runs
  {
    forall key <- order :: at <= runs[key].openedAt
  }

  /**
   The walk settles on an oldest run exactly when no run was opened at the zero instant,
   or the one walked last was.
   */
  lemma {:induction false} ChoiceIsOldest(runs: Runs, order: seq<string>)
    requires |order| > 0 && forall key <- order :: key in runs
    ensures Oldest(runs, order, Choose(runs, order).1) <==>
            (forall key <- order :: runs[key].openedAt != 0) || runs[order[|order| - 1]].openedAt == 0
  {
    var init, last := order[..|order| - 1], order[|order| - 1];
    assert order == init + [last];
    if |init| > 0 {
      ChoiceIsOldest(runs, init);
      ChoiceIsWalked(runs, init);
      assert init[|init| - 1] in init;
    }
  }

  /** A run opened at the zero instant is taken for no choice at all, and a younger one goes in its place. */
  lemma ZeroInstantIsPassedOver()
    ensures var runs: Runs := map["a" := Run(0, NONE), "b" := Run(5, NONE)];
            Choose(runs, ["a", "b"]) == ("b", 5) && !Oldest(runs, ["a", "b"], 5)
  {
    var runs: Runs := map["a" := Run(0, NONE), "b" := Run(5, NONE)];
    assert ["a", "b"][..1] == ["a"] && ["a"][..0] == [];
    assert Choose(runs, ["a"]) == ("a", 0);
    assert "a" in ["a", "b"];
  }

  /** Eviction drops every elapsed run, and an open one only when only open ones are left and there are too many. */
  lemma ElapsedGoFirst(runs: Runs, now: Instant, order: seq<string>, key: string)
    requires Walks(OpenRuns(runs, now), order) && key in runs && key !in Evicted(runs, now, order)
    ensures |runs| >= MAX_SOURCES
    ensures Open(runs[key], now) ==>
              |OpenRuns(runs, now)| >= MAX_SOURCES &&
              (forall k <- Evicted(runs, now, order) :: Open(runs[k], now)) &&
              ((forall k <- order :: runs[k].openedAt != 0) ==>
                 forall k <- Evicted(runs, now, order) :: runs[key].openedAt <= runs[k].openedAt)
  {
    var open := OpenRuns(runs, now);
    if Open(runs[key], now) {
      assert key in open && key in order;
      ChoiceIsWalked(open, order);
      ChoiceIsOldest(open, order);
    }
  }

  /**
   Below the bound nothing goes. At it, every elapsed run goes, and one open run goes when
   there are too many of those and the walk has not settled on the empty key, none otherwise.
   */
  lemma AtMostOneOpenGoes(runs: Runs, now: Instant, order: seq<string>, one: string, two: string)
    requires Walks(OpenRuns(runs, now), order) && one in runs && two in runs
    ensures var kept := Evicted(runs, now, order);
            (|runs| < MAX_SOURCES ==> kept == runs) &&
            (|runs| >= MAX_SOURCES && now - runs[one].openedAt >= WINDOW ==> one !in kept) &&
            (now - runs[one].openedAt < WINDOW && one !in kept ==> !Stuck(runs, now, order) && |OpenRuns(runs, now)| >= MAX_SOURCES) &&
            (now - runs[one].openedAt < WINDOW && one !in kept && now - runs[two].openedAt < WINDOW && two !in kept ==> one == two) &&
            (one in kept ==> kept[one] == runs[one])
  {
  }

  // The tally as an object

  /** One more refusal, and one more credential when one was presented. */
  function OneMore(c: Count, presented: bool): Count {
    Count(c.refusals + 1, if presented then c.credentials + 1 else c.credentials)
  }

  class RejectionFolder {
    var runs: Runs
    ghost var tally: Tally
    ghost var books: Books

    ghost predicate Valid()
      reads this
    {
      tally.runs == runs
    }

    constructor ()
      ensures Valid() && tally == EMPTY && books == BLANK
    {
      runs, tally, books := map[], EMPTY, BLANK;
    }

    /** Walks the map once: elapsed runs go, and the choice among the others comes back. */
    method DropElapsed(now: Instant) returns (oldest: string, ghost order: seq<string>)
      modifies this`runs
      ensures runs == OpenRuns(old(runs), now) && Walks(runs, order)
      ensures oldest == Choose(old(runs), order).0
    {
      ghost var before := runs;
      var oldestAt := 0;
      oldest := "";
      var todo := runs.Keys;
      order := [];
      while todo != {}
        invariant todo <= before.Keys
        invariant runs == map key | key in before && (key in todo || Open(before[key], now)) :: before[key]
        invariant forall key :: key in order <==> key in before && key !in todo && Open(before[key], now)
        invariant forall i, j :: 0 <= i < j < |order| ==> order[i] != order[j]
        invariant (oldest, oldestAt) == Choose(before, order)
      {
        var key :| key in todo;
        todo := todo - {key};
        if now - runs[key].openedAt >= WINDOW {
          runs := runs - {key};
        } else {
          assert (order + [key])[..|order|] == order;
          if oldestAt == 0 || runs[key].openedAt < oldestAt {
            oldest, oldestAt := key, runs[key].openedAt;
          }
          order := order + [key];
        }
      }
    }

    /** Keeps the map bounded; the walk it took is returned with it. */
    method Evict(now: Instant) returns (ghost order: seq<string>)
      modifies this`runs
      ensures Walks(OpenRuns(old(runs), now), order) && runs == Evicted(old(runs), now, order)
    {
      if |runs| < MAX_SOURCES {
        order := AnyWalk(OpenRuns(runs, now));
        return;
      }
      ghost var before := runs;
      var oldest;
      oldest, order := DropElapsed(now);
      SameChoice(before, runs, order);
      if |runs| >= MAX_SOURCES && oldest != "" {
        runs := runs - {oldest};
      }
    }

    /** Records one refusal, and says what is to be written now, if anything. */
    method Observe(now: Instant, key: string, presented: bool) returns (fold: Option<Count>, ghost order: seq<string>)
      requires Valid()
      modifies this
      ensures Valid() && Walks(OpenRuns(old(runs), now), order)
      ensures tally == Observed(old(tally), Call(now, key, BitOf(presented), order))
      ensures books == Booked(old(books), old(tally), Call(now, key, BitOf(presented), order))
      ensures fold == Report(old(tally), Call(now, key, BitOf(presented), order))
      ensures forall k :: books.observed(k) == if k == key then OneMore(old(books).observed(k), presented) else old(books).observed(k)
    {
      var credential := BitOf(presented);
      fold, order := Record(now, key, credential);
    }

    method Record(now: Instant, key: string, credential: Bit) returns (fold: Option<Count>, ghost order: seq<string>)
      requires Valid()
      modifies this
      ensures Valid() && Walks(OpenRuns(old(runs), now), order)
      ensures tally == Observed(old(tally), Call(now, key, credential, order))
      ensures books == Booked(old(books), old(tally), Call(now, key, credential, order))
      ensures fold == Report(old(tally), Call(now, key, credential, order))
    {
      var one := Count(1, credential);
      ghost var before := tally;
      if key in runs {
        order := AnyWalk(OpenRuns(runs, now));
        var run := runs[key];
        if now - run.openedAt < WINDOW {
          runs := runs[key := Run(run.openedAt, Sum(run.folded, one))];
          fold := None;
        } else {
          runs := runs[key := Run(now, NONE)];
          fold := Some(Sum(run.folded, one));
        }
      } else {
        order := Evict(now);
        runs := runs[key := Run(now, NONE)];
        fold := Some(one);
      }
      tally := Observed(before, Call(now, key, credential, order));
      books := Booked(books, before, Call(now, key, credential, order));
    }
  }

  function BitOf(presented: bool): Bit {
    if presented then 1 else 0
  }

  lemma AnyWalk(runs: Runs) returns (order: seq<string>)
    ensures Walks(runs, order)
  {
    order := [];
    var todo := runs.Keys;
    while todo != {}
      invariant todo <= runs.Keys
      invariant forall key :: key in order <==> key in runs && key !in todo
      invariant forall i, j :: 0 <= i < j < |order| ==> order[i] != order[j]
    {
      var key :| key in todo;
      todo := todo - {key};
      order := order + [key];
    }
  }

  lemma {:induction false} SameChoice(a: Runs, b: Runs, order: seq<string>)
    requires forall key <- order :: key in a && key in b && a[key] == b[key]
    ensures Choose(a, order) == Choose(b, order)
  {
    if |order| > 0 {
      SameChoice(a, b, order[..|order| - 1]);
    }
  }
}
