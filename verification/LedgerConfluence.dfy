/** What a run of ledger updates leaves, whatever the order of its reports. */
module LedgerConfluence {
  import opened DeterminismLedger
  import opened JsonTree
  import opened Lists
  import opened OracleRecords
  import opened OracleReport
  import opened Sorting

  // ----- the ledger invariant -----

  ghost predicate ValidEntry(codec: Codec, key: string, e: Entry) {
    KeyOf(codec, e.work) == key && Sorted(IdLeq, e.reportIds) && Distinct(e.reportIds) &&
    AllSameKind(Elements(e.reportIds)) && e.observationCount == |e.reportIds| && e.reportIds != []
  }

  /** Every entry is stored under its own key, with sorted, distinct, counted report ids. */
  ghost predicate ValidLedger(codec: Codec, entries: Entries) {
    forall key | key in entries :: ValidEntry(codec, key, entries[key])
  }

  // ----- what a list of observations asks for -----

  function Key(codec: Codec, o: Observation): string {
    KeyOf(codec, o.work)
  }

  ghost function NewIds(codec: Codec, observations: seq<Observation>, key: string): set<Json> {
    set o | o in observations && Key(codec, o) == key :: o.reportId
  }

  ghost function OldIds(entries: Entries, key: string): set<Json> {
    if key in entries then Elements(entries[key].reportIds) else {}
  }

  ghost function IdsAt(codec: Codec, entries: Entries, observations: seq<Observation>, key: string): set<Json> {
    OldIds(entries, key) + NewIds(codec, observations, key)
  }

  ghost function KeysOf(codec: Codec, observations: seq<Observation>): set<string> {
    set o | o in observations :: Key(codec, o)
  }

  /** Every observation repeats the recorded hashes and no two observations of a key differ. */
  ghost predicate HashesAgree(codec: Codec, entries: Entries, observations: seq<Observation>) {
    (forall o | o in observations :: Key(codec, o) in entries ==> PyEq(entries[Key(codec, o)].hashes, o.hashes)) &&
    forall o, p | o in observations && p in observations :: Key(codec, o) == Key(codec, p) ==> PyEq(o.hashes, p.hashes)
  }

  ghost predicate IdsSortable(codec: Codec, entries: Entries, observations: seq<Observation>) {
    forall key | key in KeysOf(codec, observations) :: AllSameKind(IdsAt(codec, entries, observations, key))
  }

  /** A condition on the set of observations alone. */
  ghost predicate Consistent(codec: Codec, entries: Entries, observations: seq<Observation>) {
    HashesAgree(codec, entries, observations) && IdsSortable(codec, entries, observations)
  }

  lemma ConsistentHashes(codec: Codec, entries: Entries, observations: seq<Observation>)
    requires Consistent(codec, entries, observations)
    ensures HashesAgree(codec, entries, observations)
  {
    hide HashesAgree, IdsSortable;
  }

  /** An entry is what was recorded before, or what some observation brought. */
  ghost predicate FromLedgerOrRun(codec: Codec, entries: Entries, observations: seq<Observation>, key: string, e: Entry) {
    if key in entries then e.work == entries[key].work && e.hashes == entries[key].hashes
    else exists o :: o in observations && Key(codec, o) == key && e.work == o.work && e.hashes == o.hashes
  }

  ghost predicate Outcome(codec: Codec, entries: Entries, observations: seq<Observation>, final: Entries) {
    final.Keys == entries.Keys + KeysOf(codec, observations) && ValidLedger(codec, final) &&
    forall key | key in final ::
      Elements(final[key].reportIds) == IdsAt(codec, entries, observations, key) &&
      FromLedgerOrRun(codec, entries, observations, key, final[key])
  }

  // ----- one more observation -----

  lemma AddIdExactly(ids: seq<Json>, id: Json)
    requires Sorted(IdLeq, ids) && Distinct(ids) && AllSameKind(Elements(ids))
    ensures AddId(ids, id).Ok? <==> AllSameKind(Elements(ids) + {id})
    ensures AddId(ids, id).Ok? ==>
              var r := AddId(ids, id).value;
              Sorted(IdLeq, r) && Distinct(r) && Elements(r) == Elements(ids) + {id} && r != []
  {
    hide IdLeq, AllSameKind, Sort, Sorted, Distinct;
    assert (set x | x in ids) == Elements(ids);
    if id in ids {
      assert Elements(ids) + {id} == Elements(ids);
    } else if AllSameKind(Elements(ids) + {id}) {
      AddedIdSorts(ids, id);
    }
  }

  lemma AddedIdSorts(ids: seq<Json>, id: Json)
    requires Distinct(ids) && id !in ids && AllSameKind(Elements(ids) + {id})
    ensures
      var r := Sort(IdLeq, ids + [id]);
      Sorted(IdLeq, r) && Distinct(r) && Elements(r) == Elements(ids) + {id} && r != []
  {
    hide IdLeq, SameKind, Sort;
    var all := ids + [id];
    assert Elements(all) == Elements(ids) + {id};
    assert Distinct(all);
    IdsAreOrdered(Elements(all));
    SortSorts(IdLeq, all);
    SameElements(Sort(IdLeq, all), all);
    CountDistinct(all);
    CountDistinct(Sort(IdLeq, all));
  }

  lemma NewIdsAppend(codec: Codec, front: seq<Observation>, o: Observation, key: string)
    ensures NewIds(codec, front + [o], key) == NewIds(codec, front, key) + if Key(codec, o) == key then {o.reportId} else {}
    ensures KeysOf(codec, front + [o]) == KeysOf(codec, front) + {Key(codec, o)}
  {
    hide Key;
  }

  /** The hashes stay consistent exactly when the new observation repeats what its key already holds. */
  lemma HashesStep(codec: Codec, entries: Entries, front: seq<Observation>, staged: Entries, o: Observation)
    requires HashesAgree(codec, entries, front) && Outcome(codec, entries, front, staged)
    ensures HashesAgree(codec, entries, front + [o]) <==>
            (Key(codec, o) in staged ==> PyEq(staged[Key(codec, o)].hashes, o.hashes))
  {
    hide Key, Norm, ValidLedger, IdsAt;
    var key, all := Key(codec, o), front + [o];
    assert o in all && forall p | p in front :: p in all;
    assert forall p | p in all :: p in front || p == o;
    if key in staged {
      assert FromLedgerOrRun(codec, entries, front, key, staged[key]);
    }
    if HashesAgree(codec, entries, all) && key in staged {
      assert PyEq(staged[key].hashes, o.hashes);
    }
    if key in staged && PyEq(staged[key].hashes, o.hashes) {
      forall p | p in front && Key(codec, p) == key ensures PyEq(p.hashes, o.hashes) {
        assert PyEq(staged[key].hashes, p.hashes);
      }
    }
    if key !in staged {
      assert forall p | p in front :: Key(codec, p) in KeysOf(codec, front);
    }
  }

  lemma IdsStep(codec: Codec, entries: Entries, front: seq<Observation>, o: Observation)
    requires IdsSortable(codec, entries, front)
    ensures IdsSortable(codec, entries, front + [o]) <==>
            AllSameKind(IdsAt(codec, entries, front, Key(codec, o)) + {o.reportId})
  {
    hide Key, AllSameKind, OldIds, NewIds, KeysOf;
    var all, key := front + [o], Key(codec, o);
    forall k: string ensures
      IdsAt(codec, entries, all, k) == IdsAt(codec, entries, front, k) + if key == k then {o.reportId} else {} {
      NewIdsAppend(codec, front, o, k);
    }
    NewIdsAppend(codec, front, o, key);
    assert IdsAt(codec, entries, all, key) == IdsAt(codec, entries, front, key) + {o.reportId};
    assert forall k | k != key :: IdsAt(codec, entries, all, k) == IdsAt(codec, entries, front, k);
  }

  /** Recording succeeds exactly when hashes and ids fit the entry. */
  lemma RecordExactly(codec: Codec, staged: Entries, o: Observation)
    requires ValidLedger(codec, staged)
    ensures
      var key := Key(codec, o);
      Record(codec, staged, o).Ok? <==>
      (key in staged ==> PyEq(staged[key].hashes, o.hashes)) && AllSameKind(OldIds(staged, key) + {o.reportId})
    ensures
      var key := Key(codec, o);
      Record(codec, staged, o).Ok? ==>
        var final := Record(codec, staged, o).value;
        final.Keys == staged.Keys + {key} && (forall k | k in staged && k != key :: final[k] == staged[k]) &&
        ValidEntry(codec, key, final[key]) && Elements(final[key].reportIds) == OldIds(staged, key) + {o.reportId} &&
        if key in staged then final[key].work == staged[key].work && final[key].hashes == staged[key].hashes
        else final[key].work == o.work && final[key].hashes == o.hashes
  {
    hide Norm, AddId, AllSameKind, IdLeq;
    var key := Key(codec, o);
    assert Elements<Json>([]) == {};
    if key in staged {
      assert ValidEntry(codec, key, staged[key]);
      AddIdExactly(staged[key].reportIds, o.reportId);
    } else {
      NoIds();
      AddIdExactly([], o.reportId);
    }
  }

  lemma NoIds()
    ensures Sorted(IdLeq, []) && Distinct<Json>([]) && AllSameKind(Elements<Json>([]))
  {
  }

  lemma OutcomeStep(codec: Codec, entries: Entries, front: seq<Observation>, staged: Entries, o: Observation)
    requires Outcome(codec, entries, front, staged) && Record(codec, staged, o).Ok?
    ensures Outcome(codec, entries, front + [o], Record(codec, staged, o).value)
  {
    hide Key, ValidEntry, Record, IdsAt, FromLedgerOrRun;
    var key, final := Key(codec, o), Record(codec, staged, o).value;
    NewIdsAppend(codec, front, o, key);
    assert final.Keys == staged.Keys + {key} by {
      RecordExactly(codec, staged, o);
    }
    forall k | k in final ensures
        Elements(final[k].reportIds) == IdsAt(codec, entries, front + [o], k) && ValidEntry(codec, k, final[k]) &&
        FromLedgerOrRun(codec, entries, front + [o], k, final[k]) {
      EntryIds(codec, entries, front, staged, o, k);
      EntryStep(codec, entries, front, staged, o, k);
    }
  }

  lemma EntryIds(codec: Codec, entries: Entries, front: seq<Observation>, staged: Entries, o: Observation, k: string)
    requires Outcome(codec, entries, front, staged) && Record(codec, staged, o).Ok?
    requires k in Record(codec, staged, o).value
    ensures
      var e := Record(codec, staged, o).value[k];
      Elements(e.reportIds) == IdsAt(codec, entries, front + [o], k) && ValidEntry(codec, k, e)
  {
    hide Key, Norm, ValidEntry, Record, OldIds, NewIds, AllSameKind, FromLedgerOrRun;
    RecordExactly(codec, staged, o);
    NewIdsAppend(codec, front, o, k);
    OldIdsAre(codec, entries, front, staged, k);
  }

  lemma OldIdsAre(codec: Codec, entries: Entries, front: seq<Observation>, staged: Entries, key: string)
    requires Outcome(codec, entries, front, staged)
    ensures OldIds(staged, key) == IdsAt(codec, entries, front, key)
  {
    hide Key, ValidEntry, FromLedgerOrRun;
    if key !in staged {
      assert forall p | p in front :: Key(codec, p) in KeysOf(codec, front);
      assert NewIds(codec, front, key) == {};
    }
  }

  lemma EntryStep(codec: Codec, entries: Entries, front: seq<Observation>, staged: Entries, o: Observation, k: string)
    requires Outcome(codec, entries, front, staged) && Record(codec, staged, o).Ok?
    requires k in Record(codec, staged, o).value
    ensures FromLedgerOrRun(codec, entries, front + [o], k, Record(codec, staged, o).value[k])
  {
    hide Key, Norm, ValidEntry, Record, IdsAt, OldIds, AllSameKind;
    RecordExactly(codec, staged, o);
    var all, final := front + [o], Record(codec, staged, o).value;
    assert o in all && forall p | p in front :: p in all;
    if k in staged {
      assert FromLedgerOrRun(codec, entries, front, k, staged[k]);
      assert final[k].work == staged[k].work && final[k].hashes == staged[k].hashes;
    }
  }

  /** A run succeeds exactly on consistent observations, and then leaves the stated outcome. */
  lemma {:induction false} ApplyExactly(codec: Codec, entries: Entries, observations: seq<Observation>)
    requires ValidLedger(codec, entries)
    ensures Apply(codec, entries, observations).Ok? <==> Consistent(codec, entries, observations)
    ensures Apply(codec, entries, observations).Ok? ==>
              Outcome(codec, entries, observations, Apply(codec, entries, observations).value)
    decreases |observations|
  {
    hide Record, Outcome, HashesAgree, IdsSortable, ValidLedger;
    if observations == [] {
      NothingObserved(codec, entries);
    } else {
      var n := |observations| - 1;
      var front, o := observations[..n], observations[n];
      assert observations == front + [o];
      ApplyExactly(codec, entries, front);
      ConsistentPrefix(codec, entries, front, o);
      if Consistent(codec, entries, front) {
        var staged := Apply(codec, entries, front).value;
        OutcomeIsValid(codec, entries, front, staged);
        RecordExactly(codec, staged, o);
        OldIdsAre(codec, entries, front, staged, Key(codec, o));
        HashesStep(codec, entries, front, staged, o);
        IdsStep(codec, entries, front, o);
        if Record(codec, staged, o).Ok? {
          OutcomeStep(codec, entries, front, staged, o);
        }
      }
    }
  }

  lemma OutcomeIsValid(codec: Codec, entries: Entries, observations: seq<Observation>, final: Entries)
    requires Outcome(codec, entries, observations, final)
    ensures ValidLedger(codec, final)
  {
  }

  lemma NothingObserved(codec: Codec, entries: Entries)
    requires ValidLedger(codec, entries)
    ensures Consistent(codec, entries, []) && Outcome(codec, entries, [], entries)
  {
    hide Key, Norm, ValidEntry;
    assert KeysOf(codec, []) == {};
    assert forall key :: NewIds(codec, [], key) == {};
  }

  lemma ConsistentPrefix(codec: Codec, entries: Entries, front: seq<Observation>, o: Observation)
    ensures Consistent(codec, entries, front + [o]) ==> Consistent(codec, entries, front)
  {
    hide Key, Norm, SameKind;
    var all := front + [o];
    assert forall p | p in front :: p in all;
    if Consistent(codec, entries, all) {
      forall key | key in KeysOf(codec, front) ensures AllSameKind(IdsAt(codec, entries, front, key)) {
        NewIdsAppend(codec, front, o, key);
        assert IdsAt(codec, entries, front, key) <= IdsAt(codec, entries, all, key);
      }
    }
  }

  // ----- runs of updates -----

  lemma ApplyNothing(codec: Codec, entries: Entries)
    ensures Apply(codec, entries, []) == Ok(entries)
  {
  }

  ghost function Run(codec: Codec, entries: Entries, reports: seq<Report>): Result<Entries> {
    if reports == [] then Ok(entries)
    else
      var n := |reports| - 1;
      var before :- Run(codec, entries, reports[..n]);
      Updated(codec, before, reports[n])
  }

  function AllObservations(reports: seq<Report>): seq<Observation> {
    if reports == [] then [] else AllObservations(reports[..|reports| - 1]) + Observations(reports[|reports| - 1])
  }

  ghost predicate AreLedgerReports(codec: Codec, reports: seq<Report>) {
    forall r | r in reports :: IsLedgerReport(codec, r)
  }

  lemma LedgerReportsStep(codec: Codec, reports: seq<Report>)
    ensures AreLedgerReports(codec, reports) <==>
            reports == [] ||
            (AreLedgerReports(codec, reports[..|reports| - 1]) && IsLedgerReport(codec, reports[|reports| - 1]))
  {
    hide IsLedgerReport;
    if reports != [] {
      assert reports == reports[..|reports| - 1] + [reports[|reports| - 1]];
    }
  }

  lemma {:induction false} RunApplies(codec: Codec, entries: Entries, reports: seq<Report>)
    ensures Run(codec, entries, reports).Ok? <==>
            AreLedgerReports(codec, reports) && Apply(codec, entries, AllObservations(reports)).Ok?
    ensures Run(codec, entries, reports).Ok? ==>
              Run(codec, entries, reports) == Apply(codec, entries, AllObservations(reports))
    decreases |reports|
  {
    hide IsLedgerReport, Apply, Observations, AreLedgerReports;
    LedgerReportsStep(codec, reports);
    if reports == [] {
      ApplyNothing(codec, entries);
    } else {
      var n := |reports| - 1;
      RunApplies(codec, entries, reports[..n]);
      ApplyAppend(codec, entries, AllObservations(reports[..n]), Observations(reports[n]));
    }
  }

  lemma {:induction false} AllObservationsAre(reports: seq<Report>)
    ensures forall o :: o in AllObservations(reports) <==> exists r :: r in reports && o in Observations(r)
    decreases |reports|
  {
    hide Observations;
    if reports != [] {
      var n := |reports| - 1;
      AllObservationsAre(reports[..n]);
      assert reports == reports[..n] + [reports[n]];
      assert forall r :: r in reports <==> r in reports[..n] || r == reports[n];
    }
  }

  lemma SameObservations(a: seq<Report>, b: seq<Report>)
    requires Elements(a) == Elements(b)
    ensures Elements(AllObservations(a)) == Elements(AllObservations(b))
  {
    hide Observations, AllObservations;
    AllObservationsAre(a);
    AllObservationsAre(b);
    assert forall r :: r in a <==> r in Elements(a);
    assert forall r :: r in b <==> r in Elements(b);
  }

  lemma ConsistentBySet(codec: Codec, entries: Entries, a: seq<Observation>, b: seq<Observation>)
    requires Elements(a) == Elements(b)
    ensures Consistent(codec, entries, a) ==> Consistent(codec, entries, b)
    ensures KeysOf(codec, a) == KeysOf(codec, b)
    ensures forall key :: IdsAt(codec, entries, a, key) == IdsAt(codec, entries, b, key)
  {
    hide Key, Norm, AllSameKind, OldIds;
    assert forall o :: o in a <==> o in Elements(a);
    assert forall o :: o in b <==> o in Elements(b);
    assert KeysOf(codec, a) == KeysOf(codec, b);
    forall key ensures NewIds(codec, a, key) == NewIds(codec, b, key) {
    }
  }

  /** Same keys, ids and counts, and hashes that Python calls equal. */
  ghost predicate SameLedger(a: Entries, b: Entries) {
    a.Keys == b.Keys && forall key | key in a ::
      a[key].reportIds == b[key].reportIds && a[key].observationCount == b[key].observationCount &&
      PyEq(a[key].hashes, b[key].hashes)
  }

  lemma OutcomesAgree(codec: Codec, entries: Entries, a: seq<Observation>, b: seq<Observation>, f: Entries, g: Entries)
    requires Elements(a) == Elements(b) && HashesAgree(codec, entries, a)
    requires Outcome(codec, entries, a, f) && Outcome(codec, entries, b, g)
    ensures SameLedger(f, g)
  {
    hide Key, Norm, AllSameKind, OldIds, IdsAt, IdsSortable, FromLedgerOrRun;
    ConsistentBySet(codec, entries, a, b);
    forall key | key in f ensures
        f[key].reportIds == g[key].reportIds && f[key].observationCount == g[key].observationCount &&
        PyEq(f[key].hashes, g[key].hashes) {
      assert ValidEntry(codec, key, f[key]) && ValidEntry(codec, key, g[key]);
      IdsAreOrdered(Elements(f[key].reportIds));
      SortedUnique(IdLeq, f[key].reportIds, g[key].reportIds);
      EntriesAgree(codec, entries, a, b, key, f[key], g[key]);
    }
  }

  lemma EntriesAgree(codec: Codec, entries: Entries, a: seq<Observation>, b: seq<Observation>, key: string, e: Entry, f: Entry)
    requires Elements(a) == Elements(b) && HashesAgree(codec, entries, a)
    requires FromLedgerOrRun(codec, entries, a, key, e) && FromLedgerOrRun(codec, entries, b, key, f)
    ensures PyEq(e.hashes, f.hashes)
    ensures key in entries ==> e.work == f.work && e.hashes == f.hashes
    ensures key !in entries ==> exists o, p ::
        o in a && p in a && Key(codec, o) == Key(codec, p) == key && e.work == o.work && e.hashes == o.hashes &&
        f.work == p.work && f.hashes == p.hashes
  {
    hide Key, Norm;
    if key !in entries {
      var o :| o in a && Key(codec, o) == key && e.work == o.work && e.hashes == o.hashes;
      var p :| p in b && Key(codec, p) == key && f.work == p.work && f.hashes == p.hashes;
      assert p in Elements(a);
    }
  }

  /**
   * If a set of reports is accepted in one order it is accepted in every order, repeats
   * included, and the ledgers have the same keys, report ids and counts and equal hashes.
   */
  lemma RunsConfluent(codec: Codec, entries: Entries, a: seq<Report>, b: seq<Report>)
    requires ValidLedger(codec, entries) && Elements(a) == Elements(b)
    ensures Run(codec, entries, a).Ok? <==> Run(codec, entries, b).Ok?
    ensures Run(codec, entries, a).Ok? ==> SameLedger(Run(codec, entries, a).value, Run(codec, entries, b).value)
  {
    hide IsLedgerReport, Apply, Run, Consistent, Outcome, SameLedger, ValidLedger;
    var x, y := AllObservations(a), AllObservations(b);
    RunApplies(codec, entries, a);
    RunApplies(codec, entries, b);
    SameObservations(a, b);
    ConsistentBySet(codec, entries, x, y);
    ConsistentBySet(codec, entries, y, x);
    ApplyExactly(codec, entries, x);
    ApplyExactly(codec, entries, y);
    assert AreLedgerReports(codec, a) <==> AreLedgerReports(codec, b) by {
      assert forall r :: r in a <==> r in Elements(a);
      assert forall r :: r in b <==> r in Elements(b);
    }
    if Run(codec, entries, a).Ok? {
      ConsistentHashes(codec, entries, x);
      OutcomesAgree(codec, entries, x, y, Run(codec, entries, a).value, Run(codec, entries, b).value);
    }
  }

  // ----- repeats and permanence -----

  /** The entry already carries this observation. */
  ghost predicate Carries(codec: Codec, entries: Entries, o: Observation) {
    Key(codec, o) in entries && PyEq(entries[Key(codec, o)].hashes, o.hashes) &&
    o.reportId in entries[Key(codec, o)].reportIds
  }

  lemma {:induction false} CarriedChangesNothing(codec: Codec, entries: Entries, observations: seq<Observation>)
    requires ValidLedger(codec, entries) && forall o | o in observations :: Carries(codec, entries, o)
    ensures Apply(codec, entries, observations) == Ok(entries)
    decreases |observations|
  {
    hide Norm;
    if observations != [] {
      var n := |observations| - 1;
      CarriedChangesNothing(codec, entries, observations[..n]);
      var o := observations[n];
      assert Carries(codec, entries, o);
      var key := Key(codec, o);
      assert ValidEntry(codec, key, entries[key]);
      assert entries[key := entries[key]] == entries;
    }
  }

  /** A report that is part of the history can be repeated any time and changes nothing. */
  lemma RepeatChangesNothing(codec: Codec, entries: Entries, reports: seq<Report>, r: Report)
    requires ValidLedger(codec, entries) && Run(codec, entries, reports).Ok? && r in reports
    ensures Updated(codec, Run(codec, entries, reports).value, r) == Run(codec, entries, reports)
  {
    hide IsLedgerReport, Apply, Run, Observations, AllObservations, Norm, ValidEntry;
    RunApplies(codec, entries, reports);
    AllObservationsAre(reports);
    var all, final := AllObservations(reports), Run(codec, entries, reports).value;
    ApplyExactly(codec, entries, all);
    forall o | o in Observations(r) ensures Carries(codec, final, o) {
      assert o in all;
      RunCarries(codec, entries, all, final, o);
    }
    CarriedChangesNothing(codec, final, Observations(r));
  }

  lemma RunCarries(codec: Codec, entries: Entries, all: seq<Observation>, final: Entries, o: Observation)
    requires HashesAgree(codec, entries, all) && Outcome(codec, entries, all, final) && o in all
    ensures Carries(codec, final, o)
  {
    hide Key, Norm, ValidLedger;
    var key := Key(codec, o);
    assert key in KeysOf(codec, all);
    assert o.reportId in NewIds(codec, all, key);
    assert o.reportId in Elements(final[key].reportIds);
    assert FromLedgerOrRun(codec, entries, all, key, final[key]);
  }

  /** No run of updates changes or removes what was recorded: work, hashes and report ids stay. */
  lemma RecordedIsPermanent(codec: Codec, entries: Entries, reports: seq<Report>, key: string)
    requires ValidLedger(codec, entries) && Run(codec, entries, reports).Ok? && key in entries
    ensures
      var final := Run(codec, entries, reports).value;
      ValidLedger(codec, final) && key in final && final[key].work == entries[key].work &&
      final[key].hashes == entries[key].hashes && Elements(entries[key].reportIds) <= Elements(final[key].reportIds)
  {
    hide IsLedgerReport, Apply, Run, ValidLedger, Norm;
    RunApplies(codec, entries, reports);
    var all, final := AllObservations(reports), Run(codec, entries, reports).value;
    ApplyExactly(codec, entries, all);
    assert FromLedgerOrRun(codec, entries, all, key, final[key]);
  }

  /** A ledger grown from nothing keeps its invariant. */
  lemma LedgerStaysValid(codec: Codec, reports: seq<Report>)
    requires Run(codec, map[], reports).Ok?
    ensures ValidLedger(codec, Run(codec, map[], reports).value)
  {
    hide IsLedgerReport, Apply, Run, ValidEntry;
    RunApplies(codec, map[], reports);
    ApplyExactly(codec, map[], AllObservations(reports));
  }
}
