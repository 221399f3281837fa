/** When the ledger is the same, entry for entry, in every order of its reports. */
module LedgerOrder {
  import opened DeterminismLedger
  import opened JsonTree
  import opened LedgerConfluence
  import opened Lists
  import opened OracleRecords
  import opened OracleReport
  import opened Text

  // ----- a new entry is the first observation of its key -----

  function First(codec: Codec, observations: seq<Observation>, key: string): Option<Observation> {
    if observations == [] then None
    else if Key(codec, observations[0]) == key then Some(observations[0])
    else First(codec, observations[1..], key)
  }

  lemma {:induction false} FirstAppend(codec: Codec, a: seq<Observation>, b: seq<Observation>, key: string)
    ensures First(codec, a + b, key) == if First(codec, a, key).Some? then First(codec, a, key) else First(codec, b, key)
  {
    hide Key;
    if a == [] {
      assert a + b == b;
    } else {
      assert (a + b)[1..] == a[1..] + b;
      FirstAppend(codec, a[1..], b, key);
    }
  }

  lemma {:induction false} FirstIsObserved(codec: Codec, observations: seq<Observation>, key: string)
    ensures First(codec, observations, key).Some? <==> key in KeysOf(codec, observations)
    ensures First(codec, observations, key).Some? ==>
              var first := First(codec, observations, key).value;
              first in observations && Key(codec, first) == key
  {
    hide Key;
    if observations != [] {
      FirstIsObserved(codec, observations[1..], key);
      assert observations == [observations[0]] + observations[1..];
    }
  }

  ghost predicate SameResults(o: Observation, p: Observation) {
    o.work == p.work && o.hashes == p.hashes
  }

  ghost predicate Holds(e: Entry, o: Observation) {
    e.work == o.work && e.hashes == o.hashes
  }

  lemma RecordKeeps(codec: Codec, staged: Entries, o: Observation, key: string)
    requires Record(codec, staged, o).Ok?
    ensures
      var final := Record(codec, staged, o).value;
      (key in final <==> key in staged || Key(codec, o) == key) &&
      (key in staged ==> final[key].work == staged[key].work && final[key].hashes == staged[key].hashes) &&
      (key !in staged && key in final ==> Holds(final[key], o))
  {
    hide AddId, Norm;
  }

  lemma ApplyStep(codec: Codec, entries: Entries, front: seq<Observation>, o: Observation)
    requires Apply(codec, entries, front + [o]).Ok?
    ensures Apply(codec, entries, front).Ok?
    ensures Record(codec, Apply(codec, entries, front).value, o) == Apply(codec, entries, front + [o])
  {
    hide Record;
    assert (front + [o])[..|front|] == front;
  }

  lemma NothingFirst(codec: Codec, entries: Entries, key: string)
    ensures Apply(codec, entries, []) == Ok(entries) && First(codec, [], key) == None
  {
  }

  lemma FirstStep(codec: Codec, front: seq<Observation>, o: Observation, key: string)
    ensures First(codec, front + [o], key) ==
            if First(codec, front, key).Some? then First(codec, front, key)
            else if Key(codec, o) == key then Some(o) else None
  {
    hide Key;
    FirstAppend(codec, front, [o], key);
  }

  /** A key the ledger did not have gets work and hashes of the first observation of it. */
  lemma {:induction false} FirstWins(codec: Codec, entries: Entries, observations: seq<Observation>, key: string)
    requires Apply(codec, entries, observations).Ok? && key !in entries
    ensures
      var final, first := Apply(codec, entries, observations).value, First(codec, observations, key);
      (key in final <==> first.Some?) && (first.Some? ==> Holds(final[key], first.value))
    decreases |observations|
  {
    hide Record, Key, Apply, First;
    if observations == [] {
      NothingFirst(codec, entries, key);
    } else {
      var n := |observations| - 1;
      var front, o := observations[..n], observations[n];
      assert observations == front + [o];
      ApplyStep(codec, entries, front, o);
      FirstWins(codec, entries, front, key);
      FirstStep(codec, front, o, key);
      RecordKeeps(codec, Apply(codec, entries, front).value, o, key);
    }
  }

  // ----- observations -----

  /** Any two observations of one new key have equal work and equal hashes. */
  ghost predicate NewKeysAgree(codec: Codec, entries: Entries, observations: seq<Observation>) {
    forall o, p | o in observations && p in observations ::
      Key(codec, o) == Key(codec, p) && Key(codec, o) !in entries ==> SameResults(o, p)
  }

  /** Both runs put the same work and hashes under every new key. */
  ghost predicate SameNewEntries(entries: Entries, f: Entries, g: Entries) {
    forall key | key in f && key in g && key !in entries :: f[key].work == g[key].work && f[key].hashes == g[key].hashes
  }

  lemma OutcomesEqual(codec: Codec, entries: Entries, x: seq<Observation>, y: seq<Observation>, f: Entries, g: Entries)
    requires Elements(x) == Elements(y) && HashesAgree(codec, entries, x) && SameNewEntries(entries, f, g)
    requires Outcome(codec, entries, x, f) && Outcome(codec, entries, y, g)
    ensures f == g
  {
    hide Norm, Key, IdsAt, ValidLedger, FromLedgerOrRun, HashesAgree, KeysOf;
    OutcomesAgree(codec, entries, x, y, f, g);
    forall key | key in f ensures f[key] == g[key] {
      EntriesAgree(codec, entries, x, y, key, f[key], g[key]);
    }
  }

  lemma AppliedEqually(codec: Codec, entries: Entries, x: seq<Observation>, y: seq<Observation>)
    requires ValidLedger(codec, entries) && Elements(x) == Elements(y) && Apply(codec, entries, x).Ok?
    requires Apply(codec, entries, y).Ok? ==>
      SameNewEntries(entries, Apply(codec, entries, x).value, Apply(codec, entries, y).value)
    ensures Apply(codec, entries, y) == Apply(codec, entries, x)
  {
    hide Apply, Consistent, Outcome, ValidLedger, SameNewEntries;
    ApplyExactly(codec, entries, x);
    ConsistentBySet(codec, entries, x, y);
    ApplyExactly(codec, entries, y);
    ConsistentHashes(codec, entries, x);
    OutcomesEqual(codec, entries, x, y, Apply(codec, entries, x).value, Apply(codec, entries, y).value);
  }

  lemma NewEntriesAgree(codec: Codec, entries: Entries, x: seq<Observation>, y: seq<Observation>)
    requires Elements(x) == Elements(y) && NewKeysAgree(codec, entries, x)
    requires Apply(codec, entries, x).Ok? && Apply(codec, entries, y).Ok?
    ensures SameNewEntries(entries, Apply(codec, entries, x).value, Apply(codec, entries, y).value)
  {
    hide Apply, Key, KeysOf;
    var f, g := Apply(codec, entries, x).value, Apply(codec, entries, y).value;
    forall key | key in f && key in g && key !in entries ensures
        f[key].work == g[key].work && f[key].hashes == g[key].hashes {
      FirstWins(codec, entries, x, key);
      FirstWins(codec, entries, y, key);
      FirstIsObserved(codec, x, key);
      FirstIsObserved(codec, y, key);
      assert First(codec, y, key).value in Elements(x);
    }
  }

  function ToFront<T>(s: seq<T>, i: nat): seq<T>
    requires i < |s|
  {
    [s[i]] + s[..i] + s[i + 1..]
  }

  lemma ToFrontPermutes<T>(s: seq<T>, i: nat)
    requires i < |s|
    ensures multiset(ToFront(s, i)) == multiset(s)
  {
    assert s == s[..i] + [s[i]] + s[i + 1..];
  }

  ghost predicate AppliesInAnyOrder(codec: Codec, entries: Entries, x: seq<Observation>) {
    forall y: seq<Observation> | multiset(y) == multiset(x) :: Apply(codec, entries, y) == Apply(codec, entries, x)
  }

  lemma MovedToFront(codec: Codec, entries: Entries, x: seq<Observation>, o: Observation)
    requires AppliesInAnyOrder(codec, entries, x) && Apply(codec, entries, x).Ok?
    requires o in x && Key(codec, o) !in entries
    ensures
      var final := Apply(codec, entries, x).value;
      Key(codec, o) in final && Holds(final[Key(codec, o)], o)
  {
    hide Apply, Key;
    var i :| 0 <= i < |x| && x[i] == o;
    var y := ToFront(x, i);
    ToFrontPermutes(x, i);
    assert Apply(codec, entries, y) == Apply(codec, entries, x);
    assert y[0] == o;
    FirstWins(codec, entries, y, Key(codec, o));
  }

  /** An accepted list of observations leaves one ledger in every order exactly when its new keys agree. */
  lemma OrderMattersExactly(codec: Codec, entries: Entries, x: seq<Observation>)
    requires ValidLedger(codec, entries) && Apply(codec, entries, x).Ok?
    ensures AppliesInAnyOrder(codec, entries, x) <==> NewKeysAgree(codec, entries, x)
  {
    hide Apply, Key, ValidLedger, SameNewEntries;
    if NewKeysAgree(codec, entries, x) {
      hide NewKeysAgree;
      forall y: seq<Observation> | multiset(y) == multiset(x) ensures Apply(codec, entries, y) == Apply(codec, entries, x) {
        SameElements(x, y);
        if Apply(codec, entries, y).Ok? {
          NewEntriesAgree(codec, entries, x, y);
        }
        AppliedEqually(codec, entries, x, y);
      }
    }
    if AppliesInAnyOrder(codec, entries, x) {
      hide AppliesInAnyOrder;
      forall o, p | o in x && p in x && Key(codec, o) == Key(codec, p) && Key(codec, o) !in entries
        ensures SameResults(o, p) {
        MovedToFront(codec, entries, x, o);
        MovedToFront(codec, entries, x, p);
      }
    }
  }

  // ----- reports -----

  /** What a report brings for a key: its first observation of it. */
  function Brings(codec: Codec, r: Report, key: string): Option<Observation> {
    First(codec, Observations(r), key)
  }

  /** Any two reports that bring something for a new key bring equal work and equal hashes. */
  ghost predicate ReportsAgree(codec: Codec, entries: Entries, reports: seq<Report>) {
    forall r, s, key | r in reports && s in reports && key !in entries ::
      Brings(codec, r, key).Some? && Brings(codec, s, key).Some? ==>
      SameResults(Brings(codec, r, key).value, Brings(codec, s, key).value)
  }

  /** The first observation of a run is what one of its reports brings. */
  lemma {:induction false} FirstOfRun(codec: Codec, reports: seq<Report>, key: string)
    ensures First(codec, AllObservations(reports), key).Some? ==>
              exists r :: r in reports && First(codec, AllObservations(reports), key) == Brings(codec, r, key)
    decreases |reports|
  {
    hide Observations;
    if reports != [] {
      var n := |reports| - 1;
      var front, last := reports[..n], reports[n];
      assert reports == front + [last];
      FirstAppend(codec, AllObservations(front), Observations(last), key);
      FirstOfRun(codec, front, key);
      if First(codec, AllObservations(front), key).Some? {
        var r :| r in front && First(codec, AllObservations(front), key) == Brings(codec, r, key);
        assert r in reports;
      } else {
        assert last in reports;
      }
    }
  }

  lemma {:induction false} AllObservationsFront(r: Report, reports: seq<Report>)
    ensures AllObservations([r] + reports) == Observations(r) + AllObservations(reports)
    decreases |reports|
  {
    hide Observations;
    var all := [r] + reports;
    var n := |all| - 1;
    if reports == [] {
      assert all[..0] == [];
      assert AllObservations(all) == [] + Observations(r);
    } else {
      AllObservationsFront(r, reports[..n - 1]);
      assert all[..n] == [r] + reports[..n - 1];
      assert all[n] == reports[n - 1];
    }
  }

  /** A run that starts with a report keeps what that report brings for new keys. */
  lemma FirstReportWins(codec: Codec, entries: Entries, r: Report, reports: seq<Report>, key: string)
    requires Run(codec, entries, [r] + reports).Ok? && key !in entries && Brings(codec, r, key).Some?
    ensures
      var final := Run(codec, entries, [r] + reports).value;
      key in final && Holds(final[key], Brings(codec, r, key).value)
  {
    hide Run, Apply, Observations, AllObservations, First, AreLedgerReports;
    RunApplies(codec, entries, [r] + reports);
    AllObservationsFront(r, reports);
    FirstAppend(codec, Observations(r), AllObservations(reports), key);
    FirstWins(codec, entries, AllObservations([r] + reports), key);
  }

  lemma RunEntriesAgree(codec: Codec, entries: Entries, a: seq<Report>, b: seq<Report>)
    requires Elements(a) == Elements(b) && ReportsAgree(codec, entries, a)
    requires Apply(codec, entries, AllObservations(a)).Ok? && Apply(codec, entries, AllObservations(b)).Ok?
    ensures SameNewEntries(entries, Apply(codec, entries, AllObservations(a)).value,
                           Apply(codec, entries, AllObservations(b)).value)
  {
    hide Apply, Observations, AllObservations, First, Brings;
    var x, y := AllObservations(a), AllObservations(b);
    var f, g := Apply(codec, entries, x).value, Apply(codec, entries, y).value;
    forall key | key in f && key in g && key !in entries ensures
        f[key].work == g[key].work && f[key].hashes == g[key].hashes {
      FirstWins(codec, entries, x, key);
      FirstWins(codec, entries, y, key);
      FirstOfRun(codec, a, key);
      FirstOfRun(codec, b, key);
      var r :| r in a && First(codec, x, key) == Brings(codec, r, key);
      var s :| s in b && First(codec, y, key) == Brings(codec, s, key);
      assert s in Elements(a);
    }
  }

  /** Reports that agree leave one ledger in every order, repeats included. */
  lemma AgreeingRuns(codec: Codec, entries: Entries, a: seq<Report>, b: seq<Report>)
    requires ValidLedger(codec, entries) && Elements(a) == Elements(b) && Run(codec, entries, a).Ok?
    requires ReportsAgree(codec, entries, a)
    ensures Run(codec, entries, b) == Run(codec, entries, a)
  {
    hide IsLedgerReport, Apply, Run, ValidLedger, ReportsAgree, SameLedger, SameNewEntries, AllObservations;
    RunsConfluent(codec, entries, a, b);
    RunApplies(codec, entries, a);
    RunApplies(codec, entries, b);
    SameObservations(a, b);
    RunEntriesAgree(codec, entries, a, b);
    AppliedEqually(codec, entries, AllObservations(a), AllObservations(b));
  }

  ghost predicate RunsInAnyOrder(codec: Codec, entries: Entries, a: seq<Report>) {
    forall b: seq<Report> | multiset(b) == multiset(a) :: Run(codec, entries, b) == Run(codec, entries, a)
  }

  lemma ReportToFront(codec: Codec, entries: Entries, a: seq<Report>, r: Report, key: string)
    requires RunsInAnyOrder(codec, entries, a) && Run(codec, entries, a).Ok?
    requires r in a && key !in entries && Brings(codec, r, key).Some?
    ensures
      var final := Run(codec, entries, a).value;
      key in final && Holds(final[key], Brings(codec, r, key).value)
  {
    hide Run, Brings;
    var i :| 0 <= i < |a| && a[i] == r;
    var b := ToFront(a, i);
    ToFrontPermutes(a, i);
    assert Run(codec, entries, b) == Run(codec, entries, a);
    assert b == [r] + (a[..i] + a[i + 1..]);
    FirstReportWins(codec, entries, r, a[..i] + a[i + 1..], key);
  }

  /**
   * An accepted list of reports leaves the same ledger in every order exactly when any two
   * of its reports that bring something for a new key bring equal work and equal hashes.
   */
  lemma RunsIdenticalExactly(codec: Codec, entries: Entries, a: seq<Report>)
    requires ValidLedger(codec, entries) && Run(codec, entries, a).Ok?
    ensures RunsInAnyOrder(codec, entries, a) <==> ReportsAgree(codec, entries, a)
  {
    hide Run, Brings, ValidLedger;
    if ReportsAgree(codec, entries, a) {
      hide ReportsAgree;
      forall b: seq<Report> | multiset(b) == multiset(a) ensures Run(codec, entries, b) == Run(codec, entries, a) {
        SameElements(a, b);
        AgreeingRuns(codec, entries, a, b);
      }
    }
    if RunsInAnyOrder(codec, entries, a) {
      hide RunsInAnyOrder;
      forall r, s, key | r in a && s in a && key !in entries && Brings(codec, r, key).Some? && Brings(codec, s, key).Some?
        ensures SameResults(Brings(codec, r, key).value, Brings(codec, s, key).value) {
        ReportToFront(codec, entries, a, r, key);
        ReportToFront(codec, entries, a, s, key);
      }
    }
  }

  // ----- reports without booleans -----

  /** SHA-256 tells the observed units of work apart, and no hash tree holds a boolean or an integral float. */
  ghost predicate Unambiguous(codec: Codec, observations: seq<Observation>) {
    (forall o, p | o in observations && p in observations :: Key(codec, o) == Key(codec, p) ==> o.work == p.work) &&
    forall o | o in observations :: Plain(o.hashes)
  }

  lemma UnambiguousAgrees(codec: Codec, entries: Entries, a: seq<Report>)
    requires ValidLedger(codec, entries) && Run(codec, entries, a).Ok? && Unambiguous(codec, AllObservations(a))
    ensures ReportsAgree(codec, entries, a)
  {
    hide Run, Apply, Outcome, ValidLedger, AllObservations, Observations, Key, Norm, Plain, KeysOf, AreLedgerReports, First;
    var x := AllObservations(a);
    RunApplies(codec, entries, a);
    ApplyExactly(codec, entries, x);
    ConsistentHashes(codec, entries, x);
    AllObservationsAre(a);
    forall r, s, key | r in a && s in a && key !in entries && Brings(codec, r, key).Some? && Brings(codec, s, key).Some?
      ensures SameResults(Brings(codec, r, key).value, Brings(codec, s, key).value) {
      FirstIsObserved(codec, Observations(r), key);
      FirstIsObserved(codec, Observations(s), key);
      var o, p := Brings(codec, r, key).value, Brings(codec, s, key).value;
      assert o in x && p in x;
      PlainEquality(o.hashes, p.hashes);
    }
  }

  /** Without booleans in the hashes the ledger itself is the same in every order. */
  lemma RunsIdentical(codec: Codec, entries: Entries, a: seq<Report>, b: seq<Report>)
    requires ValidLedger(codec, entries) && Elements(a) == Elements(b) && Run(codec, entries, a).Ok?
    requires Unambiguous(codec, AllObservations(a))
    ensures Run(codec, entries, b) == Run(codec, entries, a)
  {
    hide Run, ValidLedger, Unambiguous, ReportsAgree;
    UnambiguousAgrees(codec, entries, a);
    AgreeingRuns(codec, entries, a, b);
  }
}
