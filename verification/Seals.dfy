/**
 * What the digests stand for: the sealed objects written out key by key, each identifier
 * the digest of their text, and different contents always different texts.
 */
module Seals {
  import opened DeterminismLedger
  import opened JsonTree
  import opened LedgerConfluence
  import opened Lists
  import opened OracleConsensus
  import opened OracleRecords
  import opened OracleReport
  import opened Sorting

  /** A hash in its one canonical spelling, as the validators compare and seal it. */
  function Normal(hash: Json): Json {
    var text := HashText(hash, 64);
    if text.Ok? then Str(text.value) else Null
  }

  // ----- reports -----

  /** What a functional id stands for. */
  datatype Behaviour = Behaviour(sourceType: Json, sourceBackend: Json, image: Json, job: Json, records: Json)

  function BehaviourOf(r: Report): Behaviour {
    Behaviour(r.sourceType, r.sourceBackend, Normal(r.guestImage), Normal(r.job), r.records)
  }

  function BehaviourFields(b: Behaviour): Fields {
    map["schema_version" := Int(1), "kind" := Str("xemu_functional_hash_report"), "oracle_provenance" := Null,
        "source_type" := b.sourceType, "source_backend" := b.sourceBackend, "guest_image_sha256" := b.image,
        "job_sha256" := b.job, "records" := b.records]
  }

  /** What a report id stands for. */
  datatype Sighting = Sighting(functionalId: Json, observationId: Json, surfaceScale: Json, build: Json, hardware: Json)

  function SightingOf(r: Report): Sighting {
    Sighting(Normal(r.functionalId), r.observationId, r.surfaceScale, r.build, r.hardware)
  }

  function SightingFields(s: Sighting): Fields {
    map["functional_id" := s.functionalId, "observation_id" := s.observationId, "surface_scale" := s.surfaceScale,
        "build" := s.build, "hardware" := s.hardware]
  }

  /** The identifiers of a valid report are the digests of these two texts. */
  lemma ReportSeals(codec: Codec, r: Report)
    requires ValidReport(codec, r)
    ensures Normal(r.functionalId) == Str(codec.sha256(codec.canonical(Obj(BehaviourFields(BehaviourOf(r))))))
    ensures Normal(r.reportId) == Str(codec.sha256(codec.canonical(Obj(SightingFields(SightingOf(r))))))
  {
    hide HashText, ValidRecords;
  }

  lemma BehavioursTold(a: Behaviour, b: Behaviour)
    ensures Obj(BehaviourFields(a)) == Obj(BehaviourFields(b)) <==> a == b
  {
    var x, y := BehaviourFields(a), BehaviourFields(b);
    assert x["source_type"] == a.sourceType && x["source_backend"] == a.sourceBackend && x["records"] == a.records;
    assert x["guest_image_sha256"] == a.image && x["job_sha256"] == a.job;
    assert y["source_type"] == b.sourceType && y["source_backend"] == b.sourceBackend && y["records"] == b.records;
    assert y["guest_image_sha256"] == b.image && y["job_sha256"] == b.job;
  }

  lemma SightingsTold(a: Sighting, b: Sighting)
    ensures Obj(SightingFields(a)) == Obj(SightingFields(b)) <==> a == b
  {
    var x, y := SightingFields(a), SightingFields(b);
    assert x["functional_id"] == a.functionalId && x["observation_id"] == a.observationId;
    assert x["surface_scale"] == a.surfaceScale && x["build"] == a.build && x["hardware"] == a.hardware;
    assert y["functional_id"] == b.functionalId && y["observation_id"] == b.observationId;
    assert y["surface_scale"] == b.surfaceScale && y["build"] == b.build && y["hardware"] == b.hardware;
  }

  /** The two texts collide: they differ and have one digest. */
  predicate Collide(codec: Codec, a: Json, b: Json) {
    codec.canonical(a) != codec.canonical(b) && codec.sha256(codec.canonical(a)) == codec.sha256(codec.canonical(b))
  }

  /**
   * Two valid reports have one functional id exactly when they agree on source type, backend,
   * image, job and records, unless the texts of just these two contents collide; and one report
   * id exactly when they agree on its five parts, unless those texts do.
   */
  lemma ReportsBound(codec: Codec, a: Report, b: Report)
    requires codec.Valid() && ValidReport(codec, a) && ValidReport(codec, b)
    ensures Normal(a.functionalId) == Normal(b.functionalId) <==>
            BehaviourOf(a) == BehaviourOf(b) ||
            Collide(codec, Obj(BehaviourFields(BehaviourOf(a))), Obj(BehaviourFields(BehaviourOf(b))))
    ensures Normal(a.reportId) == Normal(b.reportId) <==>
            SightingOf(a) == SightingOf(b) ||
            Collide(codec, Obj(SightingFields(SightingOf(a))), Obj(SightingFields(SightingOf(b))))
  {
    hide ValidReport, BehaviourFields, SightingFields, BehaviourOf, SightingOf, Normal;
    ReportSeals(codec, a);
    ReportSeals(codec, b);
    BehavioursTold(BehaviourOf(a), BehaviourOf(b));
    SightingsTold(SightingOf(a), SightingOf(b));
  }

  /** Replacing the records of a sealed report is refused, unless the two texts collide. */
  lemma ReplacedRecordsRefused(codec: Codec, r: Report, records: Json)
    requires codec.Valid() && ValidReport(codec, r) && records != r.records
    ensures ValidReport(codec, r.(records := records)) ==>
              Collide(codec, Obj(BehaviourFields(BehaviourOf(r))),
                      Obj(BehaviourFields(BehaviourOf(r.(records := records)))))
  {
    hide ValidReport, Normal, Collide;
    if ValidReport(codec, r.(records := records)) {
      ReportsBound(codec, r, r.(records := records));
    }
  }

  // ----- manifests -----

  /** What the oracle id of a consensus stands for. */
  datatype Agreed = Agreed(sourceBackend: Json, image: Json, job: Json, records: Json, count: Json, reports: Json)

  function AgreedOf(o: Manifest): Agreed {
    Agreed(o.sourceBackend, Normal(o.guestImage), Normal(o.job), o.records, o.reportCount, o.reportIds)
  }

  function AgreedFields(a: Agreed): Fields {
    map["schema_version" := Int(1), "kind" := Str("xemu_functional_hash_oracle"),
        "oracle_provenance" := Str("REGRESSION_CONSENSUS"), "source_backend" := a.sourceBackend,
        "guest_image_sha256" := a.image, "job_sha256" := a.job, "records" := a.records,
        "consensus_report_count" := a.count, "consensus_report_ids" := a.reports]
  }

  /** What the oracle id of a retail manifest stands for. */
  datatype Owned = Owned(image: Json, job: Json, records: Json, count: Json, owners: Json)

  function OwnedOf(o: Manifest): Owned {
    Owned(Normal(o.guestImage), Normal(o.job), o.records, o.ownerCount, o.ownerReports)
  }

  function OwnedFields(a: Owned): Fields {
    map["schema_version" := Int(1), "kind" := Str("xemu_functional_hash_oracle"), "oracle_provenance" := Str("RETAIL_XBOX"),
        "source_backend" := Str("retail-xbox"), "guest_image_sha256" := a.image, "job_sha256" := a.job,
        "records" := a.records, "owner_report_count" := a.count, "owner_reports" := a.owners]
  }

  function ManifestFields(o: Manifest): Fields {
    if o.provenance == Str("REGRESSION_CONSENSUS") then AgreedFields(AgreedOf(o)) else OwnedFields(OwnedOf(o))
  }

  /** A valid manifest is of one of the two classes, and its identifier is the digest of that class's text. */
  lemma ManifestSeals(codec: Codec, o: Manifest)
    requires ValidOracle(codec, o)
    ensures o.provenance == Str("REGRESSION_CONSENSUS") ||
            (o.provenance == Str("RETAIL_XBOX") && o.sourceBackend == Str("retail-xbox"))
    ensures Normal(o.oracleId) == Str(codec.sha256(codec.canonical(Obj(ManifestFields(o)))))
  {
    hide HashText, ValidRecords, SortedHashes, NormalizedOwners, IsOwner, AreHashList, Norm, OwnerLeq, Elements, OwnerIds;
    if o.provenance == REGRESSION_CONSENSUS {
      assert o.reportIds == Arr(Texts(SortedHashes(o.reportIds.items)));
    } else {
      OwnersAreNormal(o.ownerCount, o.ownerReports);
    }
  }

  lemma OwnersAreNormal(count: Json, owners: Json)
    requires ValidOwners(count, owners)
    ensures owners == Arr(NormalizedOwners(owners.items))
  {
    hide HashText, IsOwner, OwnerLeq, Sort, Norm, NormalizedOwner, OwnerIds;
    var normal := NormalizedOwners(owners.items);
    var each := seq(|owners.items|, i requires 0 <= i < |owners.items| => NormalizedOwner(owners.items[i]));
    SameElements(normal, each);
    NormItems(owners, Arr(normal));
    forall i | 0 <= i < |normal| ensures owners.items[i] == normal[i] {
      assert normal[i] in Elements(each);
      var k :| 0 <= k < |each| && each[k] == normal[i];
      OwnerTexts(owners.items[k]);
      TextObject(owners.items[i], normal[i]);
    }
  }

  lemma OwnerTexts(item: Json)
    requires IsOwner(item)
    ensures NormalizedOwner(item).Obj? && forall k | k in NormalizedOwner(item).fields :: NormalizedOwner(item).fields[k].Str?
  {
    hide HashText;
  }

  /** A value that equals a normalized owner is that owner. */
  lemma TextObject(v: Json, owner: Json)
    requires PyEq(v, owner) && owner.Obj? && forall k | k in owner.fields :: owner.fields[k].Str?
    ensures v == owner
  {
    assert v.Obj?;
    NormFields(v, owner);
    assert v.fields == owner.fields;
  }

  lemma AgreedTold(a: Agreed, b: Agreed)
    ensures Obj(AgreedFields(a)) == Obj(AgreedFields(b)) <==> a == b
  {
    var x, y := AgreedFields(a), AgreedFields(b);
    assert x["source_backend"] == a.sourceBackend && x["guest_image_sha256"] == a.image && x["job_sha256"] == a.job;
    assert x["records"] == a.records && x["consensus_report_count"] == a.count && x["consensus_report_ids"] == a.reports;
    assert y["source_backend"] == b.sourceBackend && y["guest_image_sha256"] == b.image && y["job_sha256"] == b.job;
    assert y["records"] == b.records && y["consensus_report_count"] == b.count && y["consensus_report_ids"] == b.reports;
  }

  lemma OwnedTold(a: Owned, b: Owned)
    ensures Obj(OwnedFields(a)) == Obj(OwnedFields(b)) <==> a == b
  {
    var x, y := OwnedFields(a), OwnedFields(b);
    assert x["guest_image_sha256"] == a.image && x["job_sha256"] == a.job && x["records"] == a.records;
    assert x["owner_report_count"] == a.count && x["owner_reports"] == a.owners;
    assert y["guest_image_sha256"] == b.image && y["job_sha256"] == b.job && y["records"] == b.records;
    assert y["owner_report_count"] == b.count && y["owner_reports"] == b.owners;
  }

  lemma ClassesTold(a: Agreed, b: Owned)
    ensures Obj(AgreedFields(a)) != Obj(OwnedFields(b))
  {
    assert "owner_reports" in OwnedFields(b) && "owner_reports" !in AgreedFields(a);
  }

  /** The sealed contents of two manifests agree. */
  predicate SameManifest(a: Manifest, b: Manifest) {
    a.provenance == b.provenance &&
    if a.provenance == Str("REGRESSION_CONSENSUS") then AgreedOf(a) == AgreedOf(b) else OwnedOf(a) == OwnedOf(b)
  }

  /** Two valid manifests have one identifier exactly when class and contents agree, unless their texts collide. */
  lemma ManifestsBound(codec: Codec, a: Manifest, b: Manifest)
    requires codec.Valid() && ValidOracle(codec, a) && ValidOracle(codec, b)
    ensures Normal(a.oracleId) == Normal(b.oracleId) <==>
            SameManifest(a, b) || Collide(codec, Obj(ManifestFields(a)), Obj(ManifestFields(b)))
  {
    hide ValidOracle, AgreedFields, OwnedFields, AgreedOf, OwnedOf, Normal;
    ManifestSeals(codec, a);
    ManifestSeals(codec, b);
    AgreedTold(AgreedOf(a), AgreedOf(b));
    OwnedTold(OwnedOf(a), OwnedOf(b));
    ClassesTold(AgreedOf(a), OwnedOf(b));
    ClassesTold(AgreedOf(b), OwnedOf(a));
  }

  // ----- the ledger -----

  /** What a ledger key stands for. */
  function WorkFields(w: Work): Fields {
    map["source_backend" := w.sourceBackend, "surface_scale" := w.surfaceScale, "guest_image_sha256" := w.guestImage,
        "job_sha256" := w.job, "test_id" := w.testId, "contract" := w.contract]
  }

  /** The observation a report makes of a record, part by part, and the text its key digests. */
  lemma ObservationSeals(codec: Codec, r: Report, f: Fields)
    ensures
      var o := ObservationOf(r, Obj(f));
      o.work.sourceBackend == r.sourceBackend && o.work.surfaceScale == r.surfaceScale &&
      o.work.guestImage == r.guestImage && o.work.job == r.job && o.work.testId == Get(f, "test_id") &&
      o.work.contract == Get(f, "contract") && o.hashes == Get(f, "hashes") && o.reportId == r.reportId &&
      Key(codec, o) == codec.sha256(codec.canonical(Obj(WorkFields(o.work))))
  {
  }

  lemma WorksTold(a: Work, b: Work)
    ensures Obj(WorkFields(a)) == Obj(WorkFields(b)) <==> a == b
  {
    var x, y := WorkFields(a), WorkFields(b);
    assert x["source_backend"] == a.sourceBackend && x["surface_scale"] == a.surfaceScale && x["job_sha256"] == a.job;
    assert x["guest_image_sha256"] == a.guestImage && x["test_id"] == a.testId && x["contract"] == a.contract;
    assert y["source_backend"] == b.sourceBackend && y["surface_scale"] == b.surfaceScale && y["job_sha256"] == b.job;
    assert y["guest_image_sha256"] == b.guestImage && y["test_id"] == b.testId && y["contract"] == b.contract;
  }

  /** Two units of work share a key exactly when they agree in all six parts, unless their texts collide. */
  lemma WorksBound(codec: Codec, a: Work, b: Work)
    requires codec.Valid()
    ensures KeyOf(codec, a) == KeyOf(codec, b) <==> a == b || Collide(codec, Obj(WorkFields(a)), Obj(WorkFields(b)))
  {
    WorksTold(a, b);
    assert WorkJson(a) == Obj(WorkFields(a)) && WorkJson(b) == Obj(WorkFields(b));
  }

  /** No two different units of work among the observations have colliding texts. */
  ghost predicate WorksTellApart(codec: Codec, observations: seq<Observation>) {
    forall o, p | o in observations && p in observations :: !Collide(codec, Obj(WorkFields(o.work)), Obj(WorkFields(p.work)))
  }

  /** Observations of one unit of work repeat its hashes. */
  ghost predicate WorksRepeat(observations: seq<Observation>) {
    forall o, p | o in observations && p in observations :: o.work == p.work ==> PyEq(o.hashes, p.hashes)
  }

  /** The reports that observed a unit of work have ids of one kind. */
  ghost predicate WorkIdsAlike(observations: seq<Observation>) {
    forall o, p | o in observations && p in observations :: o.work == p.work ==> SameKind(o.reportId, p.reportId)
  }

  /**
   * A new ledger accepts observations exactly when those of one unit of work repeat its hashes
   * and come from ids of one kind; what different units of work show never clashes.
   */
  lemma AcceptedByWork(codec: Codec, observations: seq<Observation>)
    requires codec.Valid() && WorksTellApart(codec, observations)
    ensures Apply(codec, map[], observations).Ok? <==> WorksRepeat(observations) && WorkIdsAlike(observations)
  {
    hide Apply, Norm, SameKind, KeyOf, Collide, Consistent, Outcome;
    assert ValidLedger(codec, map[]) by {
      NothingStored(codec);
    }
    ApplyExactly(codec, map[], observations);
    forall o, p | o in observations && p in observations ensures Key(codec, o) == Key(codec, p) <==> o.work == p.work {
      WorksBound(codec, o.work, p.work);
    }
    ConsistentWork(codec, observations);
  }

  lemma NothingStored(codec: Codec)
    ensures ValidLedger(codec, map[])
  {
  }

  lemma ConsistentWork(codec: Codec, observations: seq<Observation>)
    requires forall o, p | o in observations && p in observations :: Key(codec, o) == Key(codec, p) <==> o.work == p.work
    ensures Consistent(codec, map[], observations) <==> WorksRepeat(observations) && WorkIdsAlike(observations)
  {
    hide Norm, SameKind, Key;
    if WorkIdsAlike(observations) {
      forall key | key in KeysOf(codec, observations) ensures AllSameKind(IdsAt(codec, map[], observations, key)) {
      }
    }
    if Consistent(codec, map[], observations) {
      forall o, p | o in observations && p in observations && o.work == p.work ensures SameKind(o.reportId, p.reportId) {
        var key := Key(codec, o);
        assert key in KeysOf(codec, observations);
        assert o.reportId in IdsAt(codec, map[], observations, key) && p.reportId in IdsAt(codec, map[], observations, key);
      }
    }
  }

  /** Different units of work stand under entries of their own, each with its own hashes and reports. */
  lemma SeparateEntries(codec: Codec, observations: seq<Observation>, o: Observation, p: Observation)
    requires codec.Valid() && WorksTellApart(codec, observations) && Apply(codec, map[], observations).Ok?
    requires o in observations && p in observations && o.work != p.work
    ensures
      var final := Apply(codec, map[], observations).value;
      var x, y := Key(codec, o), Key(codec, p);
      x != y && x in final && y in final && final[x].work == o.work && final[y].work == p.work &&
      PyEq(final[x].hashes, o.hashes) && PyEq(final[y].hashes, p.hashes) &&
      o.reportId in final[x].reportIds && p.reportId in final[y].reportIds
  {
    hide Apply, Norm, KeyOf, Collide, Consistent, Outcome;
    NothingStored(codec);
    ApplyExactly(codec, map[], observations);
    ConsistentHashes(codec, map[], observations);
    WorksBound(codec, o.work, p.work);
    EntryOf(codec, observations, o);
    EntryOf(codec, observations, p);
  }

  lemma EntryOf(codec: Codec, observations: seq<Observation>, o: Observation)
    requires codec.Valid() && WorksTellApart(codec, observations) && Apply(codec, map[], observations).Ok?
    requires o in observations && HashesAgree(codec, map[], observations)
    requires Outcome(codec, map[], observations, Apply(codec, map[], observations).value)
    ensures
      var final, key := Apply(codec, map[], observations).value, Key(codec, o);
      key in final && final[key].work == o.work && PyEq(final[key].hashes, o.hashes) && o.reportId in final[key].reportIds
  {
    hide Apply, Norm, KeyOf, Collide, ValidLedger;
    var final, key := Apply(codec, map[], observations).value, Key(codec, o);
    assert key in KeysOf(codec, observations);
    assert o.reportId in NewIds(codec, observations, key);
    assert o.reportId in Elements(final[key].reportIds);
    assert FromLedgerOrRun(codec, map[], observations, key, final[key]);
    var p :| p in observations && Key(codec, p) == key && final[key].work == p.work && final[key].hashes == p.hashes;
    WorksBound(codec, o.work, p.work);
  }
}
