/** Building a whole training sidecar: every sample through the builder, then the
    tables that summarise them. */
module TrainingSidecar {
  import opened Machine
  import opened CanonicalJson
  import opened SidecarTables
  import opened SidecarBuilder

  // ---- one sample ----

  /** A pair, confidence or rating that could not be parsed stops the import. */
  predicate Readable(s: Sample) {
    && (s.pair.Some? ==> s.pair.value.Ok?)
    && (s.review.Some? ==> s.review.value.rating.Ok?)
    && (s.generator.Some? ==> s.generator.value.confidence.Ok?)
    && LabelsReadable(s.labels)
  }

  predicate AllReadable(samples: seq<Sample>) {
    forall i :: 0 <= i < |samples| ==> Readable(samples[i])
  }

  /** How many references and ids a sample can use up. */
  function SampleCost(s: Sample): nat {
    35 + 2 * |s.labels|
  }

  function TotalCost(samples: seq<Sample>): nat {
    if samples == [] then 0 else TotalCost(samples[..|samples| - 1]) + SampleCost(samples[|samples| - 1])
  }

  /** What the review and generator references of a sample stand for. */
  ghost predicate OriginsStored(l: Log, s: Sample, policyRef: nat, reviewRef: nat, provenanceRef: nat) {
    && (match s.review
        case None => reviewRef == 0
        case Some(rv) => StoredReview(l, reviewRef, rv, policyRef))
    && (match s.generator
        case None => provenanceRef == 0
        case Some(g) =>
          provenanceRef == Max(s.id, 1) && StoredProvenance(l, provenanceRef, g, s.id, reviewRef, policyRef))
  }

  ghost predicate PairStored(l: Log, s: Sample) {
    s.pair.Some? ==> s.pair.value.Ok? && exists i :: 0 <= i < |l.t.pairs| && PairIs(l, i, s.id, s.pair.value.value)
  }

  ghost predicate LabelsStored(l: Log, e: SampleEntry, s: Sample, reviewRef: nat) {
    exists first: nat ::
      && e.labelRef == LabelRefOf(first, |s.labels|)
      && LabelRun(l, first, s.labels, |s.labels|, e.provenanceRef, reviewRef, e.evidenceRef, e.policyRef)
  }

  ghost predicate OthersStored(l: Log, e: SampleEntry, s: Sample) {
    exists reviewRef: nat ::
      OriginsStored(l, s, e.policyRef, reviewRef, e.provenanceRef) && LabelsStored(l, e, s, reviewRef)
  }

  /** Every reference of the entry leads to what the sample brought. */
  ghost predicate SampleStored(l: Log, e: SampleEntry, s: Sample) {
    && PayloadsStored(l, e, s)
    && StoredPolicy(l, e.policyRef, DISCLOSURE, s.policy) && StoredPolicy(l, e.licenseRef, LICENSE, s.license)
    && OthersStored(l, e, s) && PairStored(l, s)
  }

  lemma PayloadsKeep(a: Log, b: Log, e: SampleEntry, s: Sample)
    requires Grown(a, b) && PayloadsStored(a, e, s)
    ensures PayloadsStored(b, e, s)
  {
    hide Grown, Stored, StoredJson;
    StoredKeeps(a, b, e.inputRef, s.input, None, 0);
    StoredKeeps(a, b, e.targetRef, s.target, None, 0);
    StoredKeeps(a, b, e.metadataRef, s.metadata, None, 0);
    StoredKeeps(a, b, e.sourceRef, [], s.source, 0);
    StoredKeeps(a, b, e.evidenceRef, [], s.evidence, 0);
  }

  lemma ReviewKeeps(a: Log, b: Log, ref: nat, rv: Review, policyRef: nat)
    requires Grown(a, b) && StoredReview(a, ref, rv, policyRef)
    ensures StoredReview(b, ref, rv, policyRef)
  {
    var e := a.t.reviews[ref - 1];
    StoredKeeps(a, b, e.notesRef, [], rv.notes, 0);
    StoredKeeps(a, b, e.roleRef, rv.role, None, 0);
  }

  lemma ProvenanceKeeps(a: Log, b: Log, ref: nat, g: Generator, sampleId: nat, reviewRef: nat, policyRef: nat)
    requires Grown(a, b) && StoredProvenance(a, ref, g, sampleId, reviewRef, policyRef)
    ensures StoredProvenance(b, ref, g, sampleId, reviewRef, policyRef)
  {
    var i :| 0 <= i < |a.t.provenance| && a.t.provenance[i].id == ref
      && ProvenanceIs(a, i, g, sampleId, reviewRef, policyRef);
    var e := a.t.provenance[i];
    hide StoredActor, StoredJson, StoredProfile, KeyOf, CanonicalText;
    ActorKeeps(a, b, e.actorRef, KeyOf(g));
    StoredKeeps(a, b, e.promptRef, [], g.prompt, 0);
    StoredKeeps(a, b, e.profileRef, CanonicalText(g.decoding), None, 0);
    assert b.t.provenance[i] == e;
    assert ProvenanceIs(b, i, g, sampleId, reviewRef, policyRef);
  }

  lemma OriginsKeep(a: Log, b: Log, s: Sample, policyRef: nat, reviewRef: nat, provenanceRef: nat)
    requires Grown(a, b) && OriginsStored(a, s, policyRef, reviewRef, provenanceRef)
    ensures OriginsStored(b, s, policyRef, reviewRef, provenanceRef)
  {
    hide Grown, StoredReview, StoredProvenance;
    if s.review.Some? { ReviewKeeps(a, b, reviewRef, s.review.value, policyRef); }
    if s.generator.Some? { ProvenanceKeeps(a, b, provenanceRef, s.generator.value, s.id, reviewRef, policyRef); }
  }

  lemma PairKeeps(a: Log, b: Log, s: Sample)
    requires Grown(a, b) && PairStored(a, s)
    ensures PairStored(b, s)
  {
    if s.pair.Some? {
      var i :| 0 <= i < |a.t.pairs| && PairIs(a, i, s.id, s.pair.value.value);
      var e, p := a.t.pairs[i], s.pair.value.value;
      StoredKeeps(a, b, e.promptRef, [], Some(p.prompt), 0);
      StoredKeeps(a, b, e.chosenRef, [], Some(p.chosen), 0);
      StoredKeeps(a, b, e.rejectedRef, [], Some(p.rejected), 0);
      assert PairIs(b, i, s.id, p);
    }
  }

  lemma OthersKeep(a: Log, b: Log, e: SampleEntry, s: Sample)
    requires Grown(a, b) && OthersStored(a, e, s)
    ensures OthersStored(b, e, s)
  {
    hide Grown, OriginsStored, LabelRun;
    var reviewRef: nat :| OriginsStored(a, s, e.policyRef, reviewRef, e.provenanceRef)
      && LabelsStored(a, e, s, reviewRef);
    OriginsKeep(a, b, s, e.policyRef, reviewRef, e.provenanceRef);
    var first: nat :| e.labelRef == LabelRefOf(first, |s.labels|)
      && LabelRun(a, first, s.labels, |s.labels|, e.provenanceRef, reviewRef, e.evidenceRef, e.policyRef);
    RunKeeps(a, b, first, s.labels, |s.labels|, e.provenanceRef, reviewRef, e.evidenceRef, e.policyRef);
    assert LabelsStored(b, e, s, reviewRef);
  }

  /** What a sample brought stays reachable through its entry for ever after. */
  lemma SampleKeeps(a: Log, b: Log, e: SampleEntry, s: Sample)
    requires Grown(a, b) && SampleStored(a, e, s)
    ensures SampleStored(b, e, s)
  {
    hide Grown, PayloadsStored, StoredPolicy, OthersStored, PairStored;
    PayloadsKeep(a, b, e, s);
    StoredKeeps(a, b, e.policyRef, [], s.policy, DISCLOSURE);
    StoredKeeps(a, b, e.licenseRef, [], s.license, LICENSE);
    OthersKeep(a, b, e, s);
    PairKeeps(a, b, s);
  }

  lemma PolicyIssued(l: Log, ref: nat, kind: nat, v: Option<Json>)
    requires StoredPolicy(l, ref, kind, v)
    ensures Issued(ref, |l.t.policies|)
  {
  }

  lemma OriginsIssued(l: Log, s: Sample, policyRef: nat, reviewRef: nat, provenanceRef: nat)
    requires OriginsStored(l, s, policyRef, reviewRef, provenanceRef)
    ensures Issued(reviewRef, |l.t.reviews|) && ProvenanceIssued(l, provenanceRef)
  {
    if s.generator.Some? {
      var i :| 0 <= i < |l.t.provenance| && l.t.provenance[i].id == provenanceRef
        && ProvenanceIs(l, i, s.generator.value, s.id, reviewRef, policyRef);
    }
  }

  predicate OriginsReadable(s: Sample) {
    && (s.review.Some? ==> s.review.value.rating.Ok?)
    && (s.generator.Some? ==> s.generator.value.confidence.Ok?)
  }

  /** Human review and generator provenance of a sample. */
  method PushOrigins(b: Builder, s: Sample, policyRef: nat) returns (r: Result<(nat, nat)>)
    requires b.Valid() && ProperSample(s) && Issued(policyRef, |b.tables.policies|)
    modifies b
    ensures r.Ok? ==> b.Valid() && Grown(old(b.Now().l), b.Now().l)
    ensures r.Ok? ==> OriginsStored(b.Now().l, s, policyRef, r.value.0, r.value.1)
    ensures r.Ok? ==> b.Held() == AddOrigins(old(b.Held()), s) && OriginsReadable(s)
    ensures OriginsReadable(s) && old(b.Used()) + 19 <= U32_MAX ==> r.Ok?
    ensures r.Ok? ==> b.Used() <= old(b.Used()) + 19
  {
    hide StateOk, Grown, ProperSample, StoredReview, StoredProvenance, HeldBy, AddReview, AddGenerator;
    SampleProper(s);
    ghost var l0 := b.Now().l;
    NothingStored(l0);
    var reviewRef := 0;
    if s.review.Some? {
      var review := b.PushHumanReview(s.review.value, policyRef);
      if review.Err? { return Err(review.error); }
      reviewRef := review.value;
    }
    ghost var l1 := b.Now().l;
    NothingStored(l1);
    ReviewNamed(l1, s, reviewRef, policyRef);
    var provenanceRef := 0;
    if s.generator.Some? {
      var provenance := b.PushGeneratorProvenance(s.generator.value, s.id, reviewRef, policyRef);
      if provenance.Err? { return Err(provenance.error); }
      provenanceRef := provenance.value;
    }
    if s.review.Some? { ReviewKeeps(l1, b.Now().l, reviewRef, s.review.value, policyRef); }
    GrownTrans(l0, l1, b.Now().l);
    return Ok((reviewRef, provenanceRef));
  }

  lemma ReviewNamed(l: Log, s: Sample, reviewRef: nat, policyRef: nat)
    requires if s.review.Some? then StoredReview(l, reviewRef, s.review.value, policyRef) else reviewRef == 0
    ensures Issued(reviewRef, |l.t.reviews|)
  {
  }

  /** One turn of the import loop: payloads, policies, origins, labels, preference
      pair, and the finished entry. */
  method ImportSample(b: Builder, s: Sample, dedupGroupRef: nat) returns (r: Result<SampleEntry>)
    requires b.Valid() && ProperSample(s)
    modifies b
    ensures r.Ok? ==> b.Valid() && Grown(old(b.Now().l), b.Now().l)
    ensures r.Ok? ==> SampleStored(b.Now().l, r.value, s) && r.value.dedupGroupRef == dedupGroupRef
    ensures r.Ok? ==> r.value.id == s.id && b.Held() == AddSample(old(b.Held()), s) && Readable(s)
    ensures Readable(s) && old(b.Used()) + SampleCost(s) <= U32_MAX ==> r.Ok?
    ensures r.Ok? ==> b.Used() <= old(b.Used()) + SampleCost(s)
  {
    hide StateOk, Grown, ProperSample, PayloadsStored, StoredPolicy, OriginsStored, PairStored, LabelRun, SampleStored,
         ProvenanceIssued, HeldBy, AddOrigins, AddLabels, LabelsReadable;
    SampleProper(s);
    ghost var l0 := b.Now().l;
    var payloads := b.PushSamplePayloads(s);
    if payloads.Err? { return payloads; }
    ghost var l1 := b.Now().l;
    var policyRef := b.PushPolicyOpt(DISCLOSURE, s.policy);
    if policyRef.Err? { return Err(policyRef.error); }
    ghost var l2 := b.Now().l;
    var licenseRef := b.PushPolicyOpt(LICENSE, s.license);
    if licenseRef.Err? { return Err(licenseRef.error); }
    ghost var l3 := b.Now().l;
    StoredKeeps(l2, l3, policyRef.value, [], s.policy, DISCLOSURE);
    PolicyIssued(l3, policyRef.value, DISCLOSURE, s.policy);
    var origins := PushOrigins(b, s, policyRef.value);
    if origins.Err? { return Err(origins.error); }
    var reviewRef, provenanceRef := origins.value.0, origins.value.1;
    ghost var l4 := b.Now().l;
    GrownTrans(l1, l2, l3);
    GrownTrans(l1, l3, l4);
    PayloadsKeep(l1, l4, payloads.value, s);
    EvidenceIssued(l4, payloads.value, s);
    StoredKeeps(l3, l4, policyRef.value, [], s.policy, DISCLOSURE);
    PolicyIssued(l4, policyRef.value, DISCLOSURE, s.policy);
    OriginsIssued(l4, s, policyRef.value, reviewRef, provenanceRef);
    ghost var first := |b.tables.labels|;
    var labelRef := b.PushLabels(s, provenanceRef, reviewRef, payloads.value.evidenceRef, policyRef.value);
    if labelRef.Err? { return Err(labelRef.error); }
    ghost var l5 := b.Now().l;
    var e := payloads.value.(labelRef := labelRef.value, dedupGroupRef := dedupGroupRef, licenseRef := licenseRef.value,
                             policyRef := policyRef.value, provenanceRef := provenanceRef);
    var paired := PushPairOf(b, s, e, reviewRef, l4);
    if paired.Err? { return Err(paired.error); }
    GrownTrans(l4, l5, b.Now().l);
    GrownTrans(l1, l4, b.Now().l);
    GrownTrans(l0, l1, b.Now().l);
    GrownTrans(l3, l4, b.Now().l);
    EntryIsStored(l1, l3, l4, l5, b.Now().l, payloads.value, e, s, reviewRef, first);
    return Ok(e);
  }

  lemma EvidenceIssued(l: Log, e: SampleEntry, s: Sample)
    requires PayloadsStored(l, e, s)
    ensures Issued(e.evidenceRef, |l.pushed|) && e.id == s.id && e.split == s.split
  {
  }

  /** The preference pair, for preference samples only; an unreadable one stops the import. */
  method PushPairOf(b: Builder, s: Sample, e: SampleEntry, reviewRef: nat, ghost before: Log)
    returns (r: Result<()>)
    requires b.Valid() && ProperSample(s) && Grown(before, b.Now().l)
    requires ProvenanceIssued(before, e.provenanceRef) && Issued(reviewRef, |before.t.reviews|)
    requires Issued(e.evidenceRef, |before.pushed|) && Issued(e.policyRef, |before.t.policies|)
    modifies b
    ensures r.Ok? ==> b.Valid() && Grown(old(b.Now().l), b.Now().l) && PairStored(b.Now().l, s)
    ensures r.Ok? ==> (s.pair.Some? ==> s.pair.value.Ok?)
    ensures r.Ok? ==> b.Held() == if s.pair.Some? then AddPairId(old(b.Held()), s.id) else old(b.Held())
    ensures (s.pair.Some? ==> s.pair.value.Ok?) && old(b.Used()) + 3 <= U32_MAX ==> r.Ok?
    ensures r.Ok? ==> b.Used() <= old(b.Used()) + 3
  {
    hide StateOk, ProperSample, PairIs, ProvenanceIssued, Proper, Grown, HeldBy;
    SampleProper(s);
    NothingStored(b.Now().l);
    KeptRefs(before, b.Now().l, e.provenanceRef, e.evidenceRef);
    IssuedStay(before, b.Now().l);
    if s.pair.None? { return Ok(()); }
    if s.pair.value.Err? { return Err(s.pair.value.error); }
    r := b.PushPair(s.id, s.pair.value.value, e.provenanceRef, reviewRef, e.evidenceRef, e.policyRef);
  }

  lemma IssuedStay(a: Log, b: Log)
    requires Grown(a, b)
    ensures |a.t.reviews| <= |b.t.reviews| && |a.t.policies| <= |b.t.policies|
  {
  }

  lemma EntryIsStored(l1: Log, l3: Log, l4: Log, l5: Log, l6: Log, p: SampleEntry, e: SampleEntry, s: Sample,
                      reviewRef: nat, first: nat)
    requires Grown(l1, l6) && Grown(l3, l4) && Grown(l4, l6) && Grown(l5, l6) && Grown(l3, l6)
    requires PayloadsStored(l1, p, s)
    requires e == p.(labelRef := LabelRefOf(first, |s.labels|), dedupGroupRef := e.dedupGroupRef,
                     licenseRef := e.licenseRef, policyRef := e.policyRef, provenanceRef := e.provenanceRef)
    requires StoredPolicy(l3, e.policyRef, DISCLOSURE, s.policy) && StoredPolicy(l3, e.licenseRef, LICENSE, s.license)
    requires OriginsStored(l4, s, e.policyRef, reviewRef, e.provenanceRef)
    requires LabelRun(l5, first, s.labels, |s.labels|, e.provenanceRef, reviewRef, e.evidenceRef, e.policyRef)
    requires PairStored(l6, s)
    ensures SampleStored(l6, e, s)
  {
    PayloadsKeep(l1, l6, p, s);
    hide Grown, Stored, StoredJson, StoredPolicy, OriginsStored, LabelRun, PairStored;
    assert PayloadsStored(l6, e, s);
    StoredKeeps(l3, l6, e.policyRef, [], s.policy, DISCLOSURE);
    StoredKeeps(l3, l6, e.licenseRef, [], s.license, LICENSE);
    OriginsKeep(l4, l6, s, e.policyRef, reviewRef, e.provenanceRef);
    RunKeeps(l5, l6, first, s.labels, |s.labels|, e.provenanceRef, reviewRef, e.evidenceRef, e.policyRef);
    assert LabelsStored(l6, e, s, reviewRef);
  }

  // ---- deduplication groups ----

  function Find(groups: seq<Pair<nat>>, key: seq<byte>): (r: Option<nat>)
    ensures r.Some? ==> exists i :: 0 <= i < |groups| && groups[i] == Pair(key, r.value)
    ensures r.None? ==> forall i :: 0 <= i < |groups| ==> groups[i].key != key
  {
    if groups == [] then None
    else if groups[0].key == key then Some(groups[0].value)
    else
      var rest := Find(groups[1..], key);
      assert rest.Some? ==> exists i :: 0 <= i < |groups[1..]| && groups[1..][i] == Pair(key, rest.value);
      rest
  }

  /** The dedup reference of a sample: its key's group, or zero without a key. */
  function GroupRef(groups: seq<Pair<nat>>, s: Sample): nat {
    if s.dedupKey.None? then 0
    else
      match Find(groups, s.dedupKey.value)
      case None => 0
      case Some(id) => id
  }

  ghost predicate HasKey(samples: seq<Sample>, key: seq<byte>) {
    exists i :: 0 <= i < |samples| && samples[i].dedupKey == Some(key)
  }

  /** One group per key that occurs, with ids 1 to n in some order. */
  ghost predicate GroupsOk(groups: seq<Pair<nat>>, samples: seq<Sample>) {
    && KeysAscend(groups)
    && (forall i :: 0 <= i < |groups| ==> 0 < groups[i].value <= |groups| && HasKey(samples, groups[i].key))
    && (forall i, j :: 0 <= i < j < |groups| ==> groups[i].value != groups[j].value)
    && (forall i :: 0 <= i < |samples| && samples[i].dedupKey.Some? ==> Find(groups, samples[i].dedupKey.value).Some?)
  }

  /** Samples share a non-zero group reference exactly when they share a key. */
  lemma SameGroupIff(groups: seq<Pair<nat>>, samples: seq<Sample>, i: nat, j: nat)
    requires GroupsOk(groups, samples) && i < |samples| && j < |samples|
    ensures GroupRef(groups, samples[i]) != 0 <==> samples[i].dedupKey.Some?
    ensures GroupRef(groups, samples[i]) == GroupRef(groups, samples[j]) <==> samples[i].dedupKey == samples[j].dedupKey
  {
    if samples[i].dedupKey.Some? && samples[j].dedupKey.Some? {
      var a, b := samples[i].dedupKey.value, samples[j].dedupKey.value;
      var x :| 0 <= x < |groups| && groups[x] == Pair(a, Find(groups, a).value);
      var y :| 0 <= y < |groups| && groups[y] == Pair(b, Find(groups, b).value);
      if x < y { assert groups[x].value != groups[y].value; }
      if y < x { assert groups[y].value != groups[x].value; }
    }
  }

  lemma NewGroup(groups: seq<Pair<nat>>, samples: seq<Sample>, s: Sample)
    requires GroupsOk(groups, samples)
    ensures s.dedupKey.None? ==> GroupsOk(groups, samples + [s])
    ensures s.dedupKey.Some? && Find(groups, s.dedupKey.value).Some? ==> GroupsOk(groups, samples + [s])
    ensures s.dedupKey.Some? && Find(groups, s.dedupKey.value).None? ==>
              GroupsOk(Insert(groups, Pair(s.dedupKey.value, |groups| + 1)), samples + [s])
  {
    var more := samples + [s];
    forall key | HasKey(samples, key) ensures HasKey(more, key) {
      var i :| 0 <= i < |samples| && samples[i].dedupKey == Some(key);
      assert more[i].dedupKey == Some(key);
    }
    if s.dedupKey.Some? && Find(groups, s.dedupKey.value).None? {
      InsertedGroup(groups, samples, s);
    }
  }

  lemma {:induction false} InsertedGroup(groups: seq<Pair<nat>>, samples: seq<Sample>, s: Sample)
    requires GroupsOk(groups, samples) && s.dedupKey.Some? && Find(groups, s.dedupKey.value).None?
    requires forall key :: HasKey(samples, key) ==> HasKey(samples + [s], key)
    ensures GroupsOk(Insert(groups, Pair(s.dedupKey.value, |groups| + 1)), samples + [s])
  {
    hide Insert, Before, Find, HasKey;
    var p: Pair<nat> := Pair(s.dedupKey.value, |groups| + 1);
    var more := samples + [s];
    var after := Insert(groups, p);
    InsertSorts(groups, p);
    forall i | 0 <= i < |after| ensures 0 < after[i].value <= |after| && HasKey(more, after[i].key) {
      assert after[i] in after;
      if after[i] == p {
        HasLast(samples, s);
      } else {
        var j :| 0 <= j < |groups| && groups[j] == after[i];
        assert HasKey(samples, groups[j].key);
      }
    }
    ValuesStayDistinct(groups, after, p);
    forall i | 0 <= i < |more| && more[i].dedupKey.Some? ensures Find(after, more[i].dedupKey.value).Some? {
      KeyFound(groups, after, p, samples, s, i);
    }
  }

  lemma ValuesStayDistinct(groups: seq<Pair<nat>>, after: seq<Pair<nat>>, p: Pair<nat>)
    requires KeysAscend(after) && (forall q :: q in after <==> q == p || q in groups)
    requires forall i :: 0 <= i < |groups| ==> groups[i].value < p.value
    requires forall i, j :: 0 <= i < j < |groups| ==> groups[i].value != groups[j].value
    ensures forall i, j :: 0 <= i < j < |after| ==> after[i].value != after[j].value
  {
    hide Before;
    forall i, j | 0 <= i < j < |after| ensures after[i].value != after[j].value {
      assert after[i] in after && after[j] in after && Before(after[i].key, after[j].key);
      BeforeTrans(after[i].key, after[i].key, after[i].key);
      if after[i] != p && after[j] != p {
        var x :| 0 <= x < |groups| && groups[x] == after[i];
        var y :| 0 <= y < |groups| && groups[y] == after[j];
        assert x != y;
      }
    }
  }

  lemma HasLast(samples: seq<Sample>, s: Sample)
    requires s.dedupKey.Some?
    ensures HasKey(samples + [s], s.dedupKey.value)
  {
    assert (samples + [s])[|samples|] == s;
  }

  lemma KeyFound(groups: seq<Pair<nat>>, after: seq<Pair<nat>>, p: Pair<nat>, samples: seq<Sample>, s: Sample, i: nat)
    requires forall q :: q in after <==> q == p || q in groups
    requires i < |samples + [s]| && (samples + [s])[i].dedupKey.Some? && s.dedupKey == Some(p.key)
    requires forall j :: 0 <= j < |samples| && samples[j].dedupKey.Some? ==>
      Find(groups, samples[j].dedupKey.value).Some?
    ensures Find(after, (samples + [s])[i].dedupKey.value).Some?
  {
    var key := (samples + [s])[i].dedupKey.value;
    if i < |samples| {
      assert Find(groups, samples[i].dedupKey.value).Some?;
      var x :| 0 <= x < |groups| && groups[x] == Pair(key, Find(groups, key).value);
      assert groups[x] in after;
    } else {
      assert p in after;
    }
  }

  /** Groups are numbered as their keys first occur, and kept in key order. */
  method CollectGroups(samples: seq<Sample>) returns (r: Result<seq<Pair<nat>>>)
    ensures r.Ok? ==> GroupsOk(r.value, samples) && |r.value| <= U32_MAX
    ensures |samples| <= U32_MAX ==> r.Ok?
  {
    var groups: seq<Pair<nat>> := [];
    for i := 0 to |samples|
      invariant GroupsOk(groups, samples[..i]) && |groups| <= U32_MAX && |groups| <= i
    {
      hide GroupsOk, Insert;
      NewGroup(groups, samples[..i], samples[i]);
      assert samples[..i + 1] == samples[..i] + [samples[i]];
      if samples[i].dedupKey.Some? {
        var key := samples[i].dedupKey.value;
        if Find(groups, key).None? {
          if |groups| + 1 > U32_MAX { return Err(ArithOverflow); }
          GroupAdded(groups, key);
          groups := Insert(groups, Pair(key, |groups| + 1));
        }
      }
    }
    assert samples[..|samples|] == samples;
    return Ok(groups);
  }

  lemma GroupAdded(groups: seq<Pair<nat>>, key: seq<byte>)
    ensures |Insert(groups, Pair(key, |groups| + 1))| <= |groups| + 1
  {
    InsertLength(groups, Pair(key, |groups| + 1));
  }

  lemma {:induction false} InsertLength(groups: seq<Pair<nat>>, p: Pair<nat>)
    ensures |Insert(groups, p)| <= |groups| + 1
    decreases |groups|
  {
    if groups != [] { InsertLength(groups[1..], p); }
  }

  /** `dedup_groups` entry of one key. */
  datatype GroupEntry = GroupEntry(id: nat, policyRef: nat, canonical: nat)

  /** The smallest id among the samples that carry this key. */
  ghost predicate SmallestWithKey(samples: seq<Sample>, key: seq<byte>, id: nat) {
    && (exists i :: 0 <= i < |samples| && samples[i].dedupKey == Some(key) && samples[i].id == id)
    && (forall i :: 0 <= i < |samples| && samples[i].dedupKey == Some(key) ==> id <= samples[i].id)
  }

  method CanonicalMember(samples: seq<Sample>, key: seq<byte>) returns (id: nat)
    ensures if HasKey(samples, key) then SmallestWithKey(samples, key, id) else id == 0
  {
    var best: Option<nat> := None;
    for i := 0 to |samples|
      invariant best.None? ==> forall j :: 0 <= j < i ==> samples[j].dedupKey != Some(key)
      invariant best.Some? ==> SmallestWithKey(samples[..i], key, best.value)
    {
      ghost var before := best;
      if samples[i].dedupKey == Some(key) && (best.None? || samples[i].id < best.value) {
        best := Some(samples[i].id);
        assert samples[..i + 1][i] == samples[i];
      } else if best.Some? {
        var j :| 0 <= j < i && samples[j].dedupKey == Some(key) && samples[j].id == best.value;
        assert samples[..i + 1][j] == samples[j];
      }
    }
    assert samples[..|samples|] == samples;
    id := if best.Some? then best.value else 0;
  }

  ghost predicate GroupEntriesOk(entries: seq<GroupEntry>, groups: seq<Pair<nat>>, samples: seq<Sample>,
                                 policyRef: nat) {
    && |entries| == |groups|
    && forall i :: 0 <= i < |entries| ==>
         entries[i].id == groups[i].value && entries[i].policyRef == policyRef
         && SmallestWithKey(samples, groups[i].key, entries[i].canonical)
  }

  method GroupEntries(groups: seq<Pair<nat>>, samples: seq<Sample>, policyRef: nat) returns (entries: seq<GroupEntry>)
    requires GroupsOk(groups, samples)
    ensures GroupEntriesOk(entries, groups, samples, policyRef)
  {
    hide SmallestWithKey;
    entries := [];
    for i := 0 to |groups|
      invariant GroupEntriesOk(entries, groups[..i], samples, policyRef)
    {
      assert HasKey(samples, groups[i].key);
      var canonical := CanonicalMember(samples, groups[i].key);
      entries := entries + [GroupEntry(groups[i].value, policyRef, canonical)];
    }
    assert groups[..|groups|] == groups;
  }

  // ---- splits ----

  function SplitCount(samples: seq<Sample>, split: nat): nat {
    if samples == [] then 0
    else SplitCount(samples[..|samples| - 1], split) + (if samples[|samples| - 1].split == split then 1 else 0)
  }

  /** Every sample is counted in exactly one of the three splits. */
  lemma {:induction false} SplitsAddUp(samples: seq<Sample>)
    requires forall i :: 0 <= i < |samples| ==> IsSplit(samples[i].split)
    ensures SplitCount(samples, 1) + SplitCount(samples, 2) + SplitCount(samples, 3) == |samples|
    decreases |samples|
  {
    if samples != [] { SplitsAddUp(samples[..|samples| - 1]); }
  }

  // ---- epoch plans ----

  /** The fixed texts an enabled epoch plan stores, and the split it is restricted to. */
  datatype Plan = Plan(snapshot: Json, hash: Json, grouping: Json, filter: Json, ordering: Json, dedup: Json, rng: Json,
                       permutation: Json, only: Option<nat>)

  datatype PlanRefs = PlanRefs(snapshot: nat, hash: nat, grouping: nat, filter: nat, ordering: nat, dedup: nat,
                               rng: nat, permutation: nat)

  ghost predicate ProperPlan(p: Plan) {
    && Proper(p.snapshot) && Proper(p.hash) && Proper(p.grouping) && Proper(p.filter) && Proper(p.ordering)
    && Proper(p.dedup) && Proper(p.rng) && Proper(p.permutation)
  }

  /** Without a plan every plan reference is zero; with one each leads to its text. */
  ghost predicate PlanStored(l: Log, refs: PlanRefs, plan: Option<Plan>) {
    match plan
    case None => refs == PlanRefs(0, 0, 0, 0, 0, 0, 0, 0)
    case Some(p) =>
      && StoredJson(l, refs.snapshot, Some(p.snapshot)) && StoredJson(l, refs.hash, Some(p.hash))
      && StoredJson(l, refs.grouping, Some(p.grouping)) && StoredPolicy(l, refs.filter, DISCLOSURE, Some(p.filter))
      && StoredPolicy(l, refs.ordering, DISCLOSURE, Some(p.ordering))
      && StoredPolicy(l, refs.dedup, DISCLOSURE, Some(p.dedup))
      && StoredJson(l, refs.rng, Some(p.rng)) && StoredJson(l, refs.permutation, Some(p.permutation))
  }

  lemma PlanKeeps(a: Log, b: Log, refs: PlanRefs, plan: Option<Plan>)
    requires Grown(a, b) && PlanStored(a, refs, plan)
    ensures PlanStored(b, refs, plan)
  {
    hide Grown, StoredJson, StoredPolicy;
    if plan.Some? {
      var p := plan.value;
      StoredKeeps(a, b, refs.snapshot, [], Some(p.snapshot), 0);
      StoredKeeps(a, b, refs.hash, [], Some(p.hash), 0);
      StoredKeeps(a, b, refs.grouping, [], Some(p.grouping), 0);
      StoredKeeps(a, b, refs.filter, [], Some(p.filter), DISCLOSURE);
      StoredKeeps(a, b, refs.ordering, [], Some(p.ordering), DISCLOSURE);
      StoredKeeps(a, b, refs.dedup, [], Some(p.dedup), DISCLOSURE);
      StoredKeeps(a, b, refs.rng, [], Some(p.rng), 0);
      StoredKeeps(a, b, refs.permutation, [], Some(p.permutation), 0);
    }
  }

  /** The texts of a plan in push order: payloads (kind 0), disclosure policies, payloads. */
  function PlanItems(p: Plan): (r: seq<(nat, Json)>)
    ensures |r| == 8
  {
    [(0, p.snapshot), (0, p.hash), (0, p.grouping), (DISCLOSURE, p.filter), (DISCLOSURE, p.ordering),
     (DISCLOSURE, p.dedup), (0, p.rng), (0, p.permutation)]
  }

  ghost predicate ItemStored(l: Log, ref: nat, item: (nat, Json)) {
    if item.0 == 0 then StoredJson(l, ref, Some(item.1)) else StoredPolicy(l, ref, item.0, Some(item.1))
  }

  ghost predicate ItemsStored(l: Log, refs: seq<nat>, items: seq<(nat, Json)>) {
    |refs| == |items| && forall i :: 0 <= i < |refs| ==> ItemStored(l, refs[i], items[i])
  }

  lemma ItemsAdd(a: Log, b: Log, refs: seq<nat>, items: seq<(nat, Json)>, ref: nat, item: (nat, Json))
    requires ItemsStored(a, refs, items) && Grown(a, b) && ItemStored(b, ref, item)
    ensures ItemsStored(b, refs + [ref], items + [item])
  {
    forall i | 0 <= i < |refs| ensures ItemStored(b, refs[i], items[i]) {
      assert ItemStored(a, refs[i], items[i]);
      hide Grown, StoredJson, StoredPolicy;
      StoredKeeps(a, b, refs[i], [], Some(items[i].1), items[i].0);
    }
    hide ItemStored;
  }

  /** One text of the plan, after those already stored. */
  method PushItem(b: Builder, refs: seq<nat>, ghost items: seq<(nat, Json)>, item: (nat, Json))
    returns (r: Result<seq<nat>>)
    requires b.Valid() && Proper(item.1) && item.0 < POLICY_KINDS && ItemsStored(b.Now().l, refs, items)
    modifies b
    ensures r.Ok? ==> b.Valid() && Grown(old(b.Now().l), b.Now().l) && ItemsStored(b.Now().l, r.value, items + [item])
    ensures r.Ok? ==> b.Held() == old(b.Held())
    ensures old(b.Used()) + 4 <= U32_MAX ==> r.Ok?
    ensures r.Ok? ==> b.Used() <= old(b.Used()) + 4
  {
    hide StateOk, Grown, Proper, StoredJson, StoredPolicy, ItemsStored, HeldBy;
    ghost var l0 := b.Now().l;
    var ref: Result<nat>;
    if item.0 == 0 {
      ref := b.PushJson(item.1);
    } else {
      ref := b.PushPolicyRef(item.0, item.1);
    }
    if ref.Err? { return Err(ref.error); }
    ItemsAdd(l0, b.Now().l, refs, items, ref.value, item);
    return Ok(refs + [ref.value]);
  }

  lemma PlanProper(p: Plan, i: nat)
    requires ProperPlan(p) && i < 8
    ensures Proper(PlanItems(p)[i].1) && PlanItems(p)[i].0 < POLICY_KINDS
  {
    hide Proper;
  }

  lemma PlanIsStored(l: Log, refs: seq<nat>, p: Plan)
    requires ItemsStored(l, refs, PlanItems(p))
    ensures |refs| == 8 && PlanStored(l, PlanRefsOf(refs), Some(p))
  {
    assert ItemStored(l, refs[0], PlanItems(p)[0]) && ItemStored(l, refs[1], PlanItems(p)[1]);
    assert ItemStored(l, refs[2], PlanItems(p)[2]) && ItemStored(l, refs[3], PlanItems(p)[3]);
    assert ItemStored(l, refs[4], PlanItems(p)[4]) && ItemStored(l, refs[5], PlanItems(p)[5]);
    assert ItemStored(l, refs[6], PlanItems(p)[6]) && ItemStored(l, refs[7], PlanItems(p)[7]);
  }

  function PlanRefsOf(refs: seq<nat>): PlanRefs
    requires |refs| == 8
  {
    PlanRefs(refs[0], refs[1], refs[2], refs[3], refs[4], refs[5], refs[6], refs[7])
  }

  /** The plan's texts, when there is one; nothing at all otherwise. */
  method PushPlan(b: Builder, plan: Option<Plan>) returns (r: Result<PlanRefs>)
    requires b.Valid() && (plan.Some? ==> ProperPlan(plan.value))
    modifies b
    ensures r.Ok? ==> b.Valid() && Grown(old(b.Now().l), b.Now().l) && PlanStored(b.Now().l, r.value, plan)
    ensures r.Ok? ==> b.Held() == old(b.Held())
    ensures plan.None? ==> r.Ok? && unchanged(b)
    ensures old(b.Used()) + 32 <= U32_MAX ==> r.Ok?
    ensures r.Ok? ==> b.Used() <= old(b.Used()) + 32
  {
    hide StateOk, Grown, Proper, ProperPlan, ItemStored, PlanItems, HeldBy;
    NothingStored(b.Now().l);
    if plan.None? { return Ok(PlanRefs(0, 0, 0, 0, 0, 0, 0, 0)); }
    ghost var l0 := b.Now().l;
    var items := PlanItems(plan.value);
    var refs: seq<nat> := [];
    for i := 0 to 8
      invariant b.Valid() && Grown(l0, b.Now().l) && ItemsStored(b.Now().l, refs, items[..i])
      invariant b.Held() == old(b.Held())
      invariant b.Used() <= old(b.Used()) + 4 * i
    {
      ghost var l1 := b.Now().l;
      PlanProper(plan.value, i);
      var more := PushItem(b, refs, items[..i], items[i]);
      if more.Err? { return Err(more.error); }
      GrownTrans(l0, l1, b.Now().l);
      assert items[..i + 1] == items[..i] + [items[i]];
      refs := more.value;
    }
    assert items[..8] == items;
    PlanIsStored(b.Now().l, refs, plan.value);
    return Ok(PlanRefsOf(refs));
  }

  // ---- the import loop ----

  ghost predicate EntryOk(l: Log, e: SampleEntry, s: Sample, groups: seq<Pair<nat>>) {
    SampleStored(l, e, s) && e.id == s.id && e.split == s.split && e.dedupGroupRef == GroupRef(groups, s)
  }

  ghost predicate SamplesStored(l: Log, entries: seq<SampleEntry>, samples: seq<Sample>, groups: seq<Pair<nat>>) {
    |entries| == |samples| && forall i :: 0 <= i < |entries| ==> EntryOk(l, entries[i], samples[i], groups)
  }

  lemma StoredStep(a: Log, b: Log, entries: seq<SampleEntry>, samples: seq<Sample>, groups: seq<Pair<nat>>,
                   e: SampleEntry, s: Sample)
    requires Grown(a, b) && SamplesStored(a, entries, samples, groups) && EntryOk(b, e, s, groups)
    ensures SamplesStored(b, entries + [e], samples + [s], groups)
  {
    forall i | 0 <= i < |entries| ensures EntryOk(b, entries[i], samples[i], groups) {
      assert EntryOk(a, entries[i], samples[i], groups);
      hide Grown, SampleStored, GroupRef;
      SampleKeeps(a, b, entries[i], samples[i]);
    }
    hide EntryOk;
  }

  lemma EntryIsOk(l: Log, e: SampleEntry, s: Sample, groups: seq<Pair<nat>>)
    requires SampleStored(l, e, s) && e.dedupGroupRef == GroupRef(groups, s)
    ensures EntryOk(l, e, s, groups)
  {
    hide StoredPolicy, OthersStored, PairStored, GroupRef, Stored, StoredJson;
  }

  lemma NoSamples(l: Log, groups: seq<Pair<nat>>)
    ensures SamplesStored(l, [], [], groups) && AddAll([]) == Nothing() && TotalCost([]) == 0
  {
  }

  lemma {:induction false} CostGrows(samples: seq<Sample>, i: nat)
    requires i < |samples|
    ensures TotalCost(samples[..i + 1]) == TotalCost(samples[..i]) + SampleCost(samples[i]) <= TotalCost(samples)
    decreases |samples|
  {
    assert samples[..i + 1][..i] == samples[..i];
    if i + 1 == |samples| {
      assert samples[..i + 1] == samples;
    } else {
      var front := samples[..|samples| - 1];
      CostGrows(front, i);
      assert front[..i] == samples[..i] && front[..i + 1] == samples[..i + 1];
    }
  }

  lemma AddAllSnoc(samples: seq<Sample>, i: nat)
    requires i < |samples|
    ensures AddAll(samples[..i + 1]) == AddSample(AddAll(samples[..i]), samples[i])
  {
    assert samples[..i + 1][..i] == samples[..i];
  }

  /** Every sample in order; what was stored for earlier ones stays reachable. */
  method ImportSamples(b: Builder, samples: seq<Sample>, groups: seq<Pair<nat>>) returns (r: Result<seq<SampleEntry>>)
    requires b.Valid() && (forall i :: 0 <= i < |samples| ==> ProperSample(samples[i]))
    requires b.Held() == Nothing()
    modifies b
    ensures r.Ok? ==> b.Valid() && Grown(old(b.Now().l), b.Now().l)
    ensures r.Ok? ==> SamplesStored(b.Now().l, r.value, samples, groups)
    ensures r.Ok? ==> b.Held() == AddAll(samples) && AllReadable(samples)
    ensures AllReadable(samples) && old(b.Used()) + TotalCost(samples) <= U32_MAX ==> r.Ok?
    ensures r.Ok? ==> b.Used() <= old(b.Used()) + TotalCost(samples)
  {
    hide StateOk, Grown, ProperSample, SampleStored, EntryOk, GroupRef, SamplesStored, HeldBy, AddAll, AddSample,
      Readable;
    ghost var l0 := b.Now().l;
    NothingStored(l0);
    NoSamples(l0, groups);
    assert samples[..0] == [];
    var entries: seq<SampleEntry> := [];
    for i := 0 to |samples|
      invariant b.Valid() && Grown(l0, b.Now().l)
      invariant SamplesStored(b.Now().l, entries, samples[..i], groups)
      invariant b.Held() == AddAll(samples[..i]) && AllReadable(samples[..i])
      invariant b.Used() <= old(b.Used()) + TotalCost(samples[..i])
    {
      AddAllSnoc(samples, i);
      CostGrows(samples, i);
      ghost var l1 := b.Now().l;
      var e := ImportSample(b, samples[i], GroupRef(groups, samples[i]));
      if e.Err? { return Err(e.error); }
      GrownTrans(l0, l1, b.Now().l);
      EntryIsOk(b.Now().l, e.value, samples[i], groups);
      StoredStep(l1, b.Now().l, entries, samples[..i], groups, e.value, samples[i]);
      assert samples[..i + 1] == samples[..i] + [samples[i]];
      entries := entries + [e.value];
    }
    assert samples[..|samples|] == samples;
    return Ok(entries);
  }

  // ---- the finished sidecar ----

  datatype SplitEntry = SplitEntry(id: nat, seed: nat, count: nat, snapshotRef: nat, filterRef: nat, hashRef: nat,
                                   groupingRef: nat, orderingRef: nat, dedupRef: nat)

  datatype PlanEntry = PlanEntry(id: nat, split: nat, seed: nat, rngRef: nat, permutationRef: nat)

  /** `TrainingProfileV1`, the fields that refer elsewhere. */
  datatype TrainingProfile = TrainingProfile(splitPolicyRef: nat, dedupPolicyRef: nat, licenseRef: nat,
                                             provenanceRef: nat)

  datatype Sidecar = Sidecar(payload: seq<byte>, tables: Tables, samples: seq<SampleEntry>, groups: seq<GroupEntry>,
                             profile: TrainingProfile, splits: seq<SplitEntry>, plans: seq<PlanEntry>)

  /** The first policy of a kind, by reference. */
  function FirstOfKind(policies: seq<PolicyEntry>, kind: nat): (r: Option<nat>)
    ensures r.None? ==> forall i :: 0 <= i < |policies| ==> policies[i].kind != kind
    ensures r.Some? ==>
              exists i :: 0 <= i < |policies| && policies[i].kind == kind && policies[i].ref == r.value
                          && forall j :: 0 <= j < i ==> policies[j].kind != kind
  {
    if policies == [] then None
    else if policies[0].kind == kind then Some(policies[0].ref)
    else
      var rest := FirstOfKind(policies[1..], kind);
      FoundLater(policies, kind, rest);
      rest
  }

  lemma FoundLater(policies: seq<PolicyEntry>, kind: nat, rest: Option<nat>)
    requires policies != [] && policies[0].kind != kind
    requires rest.None? ==> forall i :: 0 <= i < |policies[1..]| ==> policies[1..][i].kind != kind
    requires rest.Some? ==>
               exists i :: 0 <= i < |policies[1..]| && policies[1..][i].kind == kind
                 && policies[1..][i].ref == rest.value
                           && forall j :: 0 <= j < i ==> policies[1..][j].kind != kind
    ensures rest.None? ==> forall i :: 0 <= i < |policies| ==> policies[i].kind != kind
    ensures rest.Some? ==>
              exists i :: 0 <= i < |policies| && policies[i].kind == kind && policies[i].ref == rest.value
                          && forall j :: 0 <= j < i ==> policies[j].kind != kind
  {
    var tail := policies[1..];
    forall i | 0 < i < |policies| ensures policies[i] == tail[i - 1] {}
    if rest.Some? {
      var i :| 0 <= i < |tail| && tail[i].kind == kind && tail[i].ref == rest.value
        && forall j :: 0 <= j < i ==> tail[j].kind != kind;
      assert policies[i + 1] == tail[i];
    }
  }

  function OrZero(r: Option<nat>): nat {
    match r
    case None => 0
    case Some(v) => v
  }

  /** Every training profile reference is zero or leads to an entry, and the license is
      there whenever some sample has one. */
  ghost predicate TrainingProfileOk(p: TrainingProfile, l: Log, samples: seq<Sample>) {
    && Issued(p.splitPolicyRef, |l.t.policies|) && Issued(p.dedupPolicyRef, |l.t.policies|)
    && ProvenanceIssued(l, p.provenanceRef) && (p.provenanceRef == 0 <==> l.t.provenance == [])
    && Issued(p.licenseRef, |l.t.policies|) && (p.licenseRef > 0 ==> l.t.policies[p.licenseRef - 1].kind == LICENSE)
    && (p.licenseRef == 0 ==> forall i :: 0 <= i < |samples| ==> samples[i].license.None?)
  }

  lemma TrainingProfileIs(p: TrainingProfile, l: Log, samples: seq<Sample>, entries: seq<SampleEntry>,
                          groups: seq<Pair<nat>>, sha: seq<byte> -> seq<byte>)
    requires LogOk(l, sha) && SamplesStored(l, entries, samples, groups)
    requires Issued(p.splitPolicyRef, |l.t.policies|) && Issued(p.dedupPolicyRef, |l.t.policies|)
    requires p.licenseRef == OrZero(FirstOfKind(l.t.policies, LICENSE))
    requires p.provenanceRef == if l.t.provenance == [] then 0 else l.t.provenance[0].id
    ensures TrainingProfileOk(p, l, samples)
  {
    hide DigestOk, StringOk, ActorOk, ProfileOk, ReviewOk, LabelOk, PairOk, SampleStored;
    var first := FirstOfKind(l.t.policies, LICENSE);
    if first.Some? {
      var i :| 0 <= i < |l.t.policies| && l.t.policies[i].kind == LICENSE && l.t.policies[i].ref == first.value;
      assert PolicyOk(l, sha, i);
    } else {
      forall i | 0 <= i < |samples| ensures samples[i].license.None? {
        assert EntryOk(l, entries[i], samples[i], groups);
        LicenseStored(l, entries[i], samples[i]);
      }
    }
    if l.t.provenance != [] { assert ProvenanceOk(l, 0); }
  }

  lemma LicenseStored(l: Log, e: SampleEntry, s: Sample)
    requires SampleStored(l, e, s)
    ensures s.license.Some? ==> exists i :: 0 <= i < |l.t.policies| && l.t.policies[i].kind == LICENSE
  {
    hide PayloadsStored, OthersStored, PairStored, StoredJson;
  }

  ghost predicate SplitsOk(splits: seq<SplitEntry>, refs: PlanRefs, seed: nat, samples: seq<Sample>) {
    |splits| == 3 && forall i :: 0 <= i < 3 ==>
      splits[i] == SplitEntry(i + 1, seed, SplitCount(samples, i + 1), refs.snapshot, refs.filter, refs.hash,
                              refs.grouping, refs.ordering, refs.dedup)
  }

  predicate PlanIs(e: PlanEntry, refs: PlanRefs, seed: nat) {
    e == PlanEntry(e.split, e.split, seed, refs.rng, refs.permutation)
  }

  /** One epoch plan per split, or only for the chosen one. */
  ghost predicate PlansOk(plans: seq<PlanEntry>, refs: PlanRefs, plan: Option<Plan>, seed: nat) {
    && (plan.None? ==> plans == [])
    && (forall i :: 0 <= i < |plans| ==> IsSplit(plans[i].split) && PlanIs(plans[i], refs, seed))
    && (plan.Some? ==> forall split :: IsSplit(split) ==>
         (HasPlan(plans, split) <==> (plan.value.only.None? || plan.value.only.value == split)))
    && (forall i, j :: 0 <= i < j < |plans| ==> plans[i].split < plans[j].split)
  }

  /** No two actor entries spell the same key. */
  ghost predicate ActorsDistinct(l: Log) {
    forall i: nat, j: nat, key :: StoredActor(l, i, key) && StoredActor(l, j, key) ==> i == j
  }

  /** What a finished sidecar guarantees. */
  ghost predicate SidecarOk(c: Sidecar, pushed: seq<seq<byte>>, samples: seq<Sample>, plan: Option<Plan>, seed: nat,
                            sha: seq<byte> -> seq<byte>) {
    var l := Log(pushed, c.tables);
    && LogOk(l, sha) && c.payload == Concat(pushed)
    && (exists groups: seq<Pair<nat>> :: GroupsOk(groups, samples) && SamplesStored(l, c.samples, samples, groups)
                         && GroupEntriesOk(c.groups, groups, samples, c.profile.dedupPolicyRef))
    && ContentsOf(l) == AddAll(samples).c && ActorsDistinct(l)
    && TrainingProfileOk(c.profile, l, samples)
    && (exists refs ::
          PlanStored(l, refs, plan) && SplitsOk(c.splits, refs, seed, samples) && PlansOk(c.plans, refs, plan, seed)
          && c.profile.dedupPolicyRef == refs.dedup && c.profile.splitPolicyRef == refs.filter)
  }

  method SplitEntries(samples: seq<Sample>, refs: PlanRefs, seed: nat) returns (splits: seq<SplitEntry>)
    ensures SplitsOk(splits, refs, seed, samples)
  {
    splits := [];
    for i := 0 to 3
      invariant |splits| == i
      invariant forall j :: 0 <= j < i ==>
        splits[j] == SplitEntry(j + 1, seed, SplitCount(samples, j + 1), refs.snapshot, refs.filter, refs.hash,
                                refs.grouping, refs.ordering, refs.dedup)
    {
      splits := splits + [SplitEntry(i + 1, seed, SplitCount(samples, i + 1), refs.snapshot, refs.filter, refs.hash,
                                     refs.grouping, refs.ordering, refs.dedup)];
    }
  }

  ghost predicate HasPlan(plans: seq<PlanEntry>, split: nat) {
    exists i :: 0 <= i < |plans| && plans[i].split == split
  }

  method PlanEntries(refs: PlanRefs, plan: Option<Plan>, seed: nat) returns (plans: seq<PlanEntry>)
    ensures PlansOk(plans, refs, plan, seed)
  {
    plans := [];
    if plan.None? { return; }
    for split := 1 to 4
      invariant forall i :: 0 <= i < |plans| ==> 1 <= plans[i].split < split && PlanIs(plans[i], refs, seed)
      invariant forall s :: 1 <= s < split ==>
        (HasPlan(plans, s) <==> (plan.value.only.None? || plan.value.only.value == s))
      invariant forall i, j :: 0 <= i < j < |plans| ==> plans[i].split < plans[j].split
    {
      if plan.value.only.Some? && plan.value.only.value != split { continue; }
      var more := plans + [PlanEntry(split, split, seed, refs.rng, refs.permutation)];
      forall s | 1 <= s <= split ensures HasPlan(more, s) <==> s == split || HasPlan(plans, s) {
        assert more[|plans|].split == split;
        if HasPlan(plans, s) {
          var i :| 0 <= i < |plans| && plans[i].split == s;
          assert more[i].split == s;
        }
      }
      plans := more;
    }
  }

  // ---- the whole build ----

  /** The tables of `build_training_sidecar`: they are in order, and built exactly when
      every pair, confidence and rating is readable, as long as the references cannot
      run out. */
  method BuildTables(samples: seq<Sample>, plan: Option<Plan>, seed: nat, sha: seq<byte> -> seq<byte>)
    returns (r: Result<Sidecar>, ghost pushed: seq<seq<byte>>)
    requires (forall x: seq<byte> :: |sha(x)| == DIGEST_LEN) && (plan.Some? ==> ProperPlan(plan.value))
    requires forall i :: 0 <= i < |samples| ==> ProperSample(samples[i])
    ensures r.Ok? ==> SidecarOk(r.value, pushed, samples, plan, seed, sha) && AllReadable(samples)
    ensures AllReadable(samples) && 40 + TotalCost(samples) <= U32_MAX ==> r.Ok?
  {
    hide StateOk, ProperSample, ProperPlan, GroupsOk, SamplesStored, HeldBy, AddAll, Readable, ContentsOf, PlanStored,
         LogOk, GroupEntriesOk, TrainingProfileOk, SplitsOk, PlansOk, FirstOfKind, ActorsDistinct;
    CostCovers(samples);
    pushed := [];
    var collected := CollectGroups(samples);
    if collected.Err? { return Err(collected.error), pushed; }
    var groups := collected.value;
    var b := new Builder(sha);
    var planned := PushPlan(b, plan);
    assert planned.Ok?; // a fresh builder has room for a plan
    var refs := planned.value;
    ghost var l1 := b.Now().l;
    var entries := ImportSamples(b, samples, groups);
    if entries.Err? { return Err(entries.error), pushed; }
    ghost var l := b.Now().l;
    PlanKeeps(l1, l, refs, plan);
    var groupEntries := GroupEntries(groups, samples, refs.dedup);
    var t := b.tables;
    var profile := TrainingProfile(refs.filter, refs.dedup, OrZero(FirstOfKind(t.policies, LICENSE)),
                                   if t.provenance == [] then 0 else t.provenance[0].id);
    BuilderIntegrity(b.Now(), sha);
    ContentsHeld(b.Now());
    PlanIssued(l, refs, plan);
    TrainingProfileIs(profile, l, samples, entries.value, groups, sha);
    var splits := SplitEntries(samples, refs, seed);
    var plans := PlanEntries(refs, plan, seed);
    pushed := b.pushed;
    return Ok(Sidecar(b.payload, t, entries.value, groupEntries, profile, splits, plans)), pushed;
  }

  lemma {:induction false} CostCovers(samples: seq<Sample>)
    ensures |samples| <= TotalCost(samples)
    decreases |samples|
  {
    if samples != [] { CostCovers(samples[..|samples| - 1]); }
  }

  lemma BuilderIntegrity(s: State, sha: seq<byte> -> seq<byte>)
    requires StateOk(s, sha)
    ensures LogOk(s.l, sha) && s.payload == Concat(s.l.pushed) && ActorsDistinct(s.l)
  {
    hide LogOk, StoredActor, MemosOk, ActorsOnce, Concat;
    forall i: nat, j: nat, key | StoredActor(s.l, i, key) && StoredActor(s.l, j, key) ensures i == j {
      OneActorPerKey(s.l, s.actors, s.profiles, i, j, key);
    }
  }

  lemma ContentsHeld(s: State)
    ensures HeldBy(s).c == ContentsOf(s.l)
  {
  }

  lemma PlanIssued(l: Log, refs: PlanRefs, plan: Option<Plan>)
    requires PlanStored(l, refs, plan)
    ensures Issued(refs.filter, |l.t.policies|) && Issued(refs.dedup, |l.t.policies|)
  {
  }

  // ---- what a reader of the sidecar can rely on ----

  /** Follow a payload reference: the bytes of its range, nothing for zero. */
  function Follow(payload: seq<byte>, refs: seq<PayloadRef>, ref: nat): Option<seq<byte>> {
    if ref == 0 then Some([])
    else if ref > |refs| || refs[ref - 1].offset + refs[ref - 1].length > |payload| then None
    else Some(payload[refs[ref - 1].offset..refs[ref - 1].offset + refs[ref - 1].length])
  }

  lemma FollowStored(l: Log, ref: nat, bytes: seq<byte>)
    requires l.t.payloadRefs == RefsOf(l.pushed) && Stored(l, ref, bytes)
    ensures Follow(Concat(l.pushed), l.t.payloadRefs, ref) == Some(bytes)
  {
    hide Concat, RefsOf;
    if ref > 0 { RefsTile(l.pushed, ref - 1); }
  }

  function TextOrEmpty(v: Option<Json>): seq<byte> {
    match v
    case None => []
    case Some(j) => Print(j)
  }

  /** Following the references of entry i through the ranges of the payload section
      gives exactly what sample i brought; a policy's text sits under its policy. */
  lemma SamplesReadBack(c: Sidecar, pushed: seq<seq<byte>>, samples: seq<Sample>, plan: Option<Plan>, seed: nat,
                        sha: seq<byte> -> seq<byte>, i: nat)
    requires SidecarOk(c, pushed, samples, plan, seed, sha) && i < |samples|
    ensures |c.samples| == |samples| && c.samples[i].id == samples[i].id
    ensures var e, s, refs := c.samples[i], samples[i], c.tables.payloadRefs;
            && Follow(c.payload, refs, e.inputRef) == Some(s.input)
            && Follow(c.payload, refs, e.targetRef) == Some(s.target)
            && Follow(c.payload, refs, e.metadataRef) == Some(s.metadata)
            && Follow(c.payload, refs, e.sourceRef) == Some(TextOrEmpty(s.source))
            && Follow(c.payload, refs, e.evidenceRef) == Some(TextOrEmpty(s.evidence))
            && (e.licenseRef == 0 <==> s.license.None?)
            && (s.license.Some? ==>
                  && e.licenseRef <= |c.tables.policies|
                  && Follow(c.payload, refs, c.tables.policies[e.licenseRef - 1].payloadRef)
                     == Some(Print(s.license.value)))
  {
    hide SidecarOk, SampleStored, Follow, Stored, Print, RefsOf, Concat, IsSplit;
    var l := Log(pushed, c.tables);
    SidecarParts(c, pushed, samples, plan, seed, sha, i);
    EntryParts(l, c.samples[i], samples[i]);
    var e, s := c.samples[i], samples[i];
    FollowStored(l, e.inputRef, s.input);
    FollowStored(l, e.targetRef, s.target);
    FollowStored(l, e.metadataRef, s.metadata);
    FollowStored(l, e.sourceRef, TextOrEmpty(s.source));
    FollowStored(l, e.evidenceRef, TextOrEmpty(s.evidence));
    if s.license.Some? { FollowStored(l, c.tables.policies[e.licenseRef - 1].payloadRef, Print(s.license.value)); }
  }

  lemma SidecarParts(c: Sidecar, pushed: seq<seq<byte>>, samples: seq<Sample>, plan: Option<Plan>, seed: nat,
                     sha: seq<byte> -> seq<byte>, i: nat)
    requires SidecarOk(c, pushed, samples, plan, seed, sha) && i < |samples|
    ensures c.tables.payloadRefs == RefsOf(pushed) && c.payload == Concat(pushed)
    ensures |c.samples| == |samples| && SampleStored(Log(pushed, c.tables), c.samples[i], samples[i])
    ensures c.samples[i].id == samples[i].id && c.samples[i].split == samples[i].split
  {
    hide SampleStored, GroupsOk, GroupEntriesOk, PlanStored, PlansOk, SplitsOk, TrainingProfileOk, ContentsOf,
      ActorsDistinct, RefsOf, Concat;
    var l := Log(pushed, c.tables);
    var groups: seq<Pair<nat>> :| GroupsOk(groups, samples) && SamplesStored(l, c.samples, samples, groups)
      && GroupEntriesOk(c.groups, groups, samples, c.profile.dedupPolicyRef);
    assert EntryOk(l, c.samples[i], samples[i], groups);
  }

  lemma EntryParts(l: Log, e: SampleEntry, s: Sample)
    requires SampleStored(l, e, s)
    ensures Stored(l, e.inputRef, s.input) && Stored(l, e.targetRef, s.target) && Stored(l, e.metadataRef, s.metadata)
    ensures Stored(l, e.sourceRef, TextOrEmpty(s.source)) && Stored(l, e.evidenceRef, TextOrEmpty(s.evidence))
    ensures e.licenseRef == 0 <==> s.license.None?
    ensures s.license.Some? ==>
              && Named(e.licenseRef, |l.t.policies|)
              && Stored(l, l.t.policies[e.licenseRef - 1].payloadRef, Print(s.license.value))
  {
    hide OthersStored, PairStored, Print;
  }

  /** Entries share a non-zero group reference exactly when their samples share a
      key, and the reference names one group entry, led by the smallest id in it. */
  lemma GroupsReadBack(c: Sidecar, pushed: seq<seq<byte>>, samples: seq<Sample>, plan: Option<Plan>, seed: nat,
                       sha: seq<byte> -> seq<byte>, i: nat, j: nat)
    requires SidecarOk(c, pushed, samples, plan, seed, sha) && i < |samples| && j < |samples|
    ensures |c.samples| == |samples|
    ensures c.samples[i].dedupGroupRef == c.samples[j].dedupGroupRef <==> samples[i].dedupKey == samples[j].dedupKey
    ensures c.samples[i].dedupGroupRef == 0 <==> samples[i].dedupKey.None?
    ensures samples[i].dedupKey.Some? ==>
              exists k :: 0 <= k < |c.groups| && c.groups[k].id == c.samples[i].dedupGroupRef
                          && SmallestWithKey(samples, samples[i].dedupKey.value, c.groups[k].canonical)
    ensures forall k, m :: 0 <= k < m < |c.groups| ==> c.groups[k].id != c.groups[m].id
  {
    var l := Log(pushed, c.tables);
    var groups: seq<Pair<nat>> :| GroupsOk(groups, samples) && SamplesStored(l, c.samples, samples, groups)
      && GroupEntriesOk(c.groups, groups, samples, c.profile.dedupPolicyRef);
    assert EntryOk(l, c.samples[i], samples[i], groups) && EntryOk(l, c.samples[j], samples[j], groups);
    hide SampleStored, LogOk, HasKey, SmallestWithKey;
    SameGroupIff(groups, samples, i, j);
    if samples[i].dedupKey.Some? {
      var key := samples[i].dedupKey.value;
      var k :| 0 <= k < |groups| && groups[k] == Pair(key, Find(groups, key).value);
      assert c.groups[k].id == groups[k].value;
    }
  }

  /** Every sample's split reference names the split entry that counts it, and the
      three counts add up to the samples. */
  lemma SplitsReadBack(c: Sidecar, pushed: seq<seq<byte>>, samples: seq<Sample>, plan: Option<Plan>, seed: nat,
                       sha: seq<byte> -> seq<byte>)
    requires SidecarOk(c, pushed, samples, plan, seed, sha) && forall i :: 0 <= i < |samples| ==>
      IsSplit(samples[i].split)
    ensures |c.splits| == 3 && c.splits[0].count + c.splits[1].count + c.splits[2].count == |samples|
    ensures forall i :: 0 <= i < |samples| ==>
              |c.samples| == |samples| && IsSplit(c.samples[i].split)
              && c.splits[c.samples[i].split - 1].id == samples[i].split
  {
    SplitsAddUp(samples);
    forall i | 0 <= i < |samples| ensures |c.samples| == |samples| && c.samples[i].split == samples[i].split {
      hide *;
      SidecarParts(c, pushed, samples, plan, seed, sha, i);
    }
    hide GroupsOk, SamplesStored, GroupEntriesOk, PlanStored, PlansOk, LogOk, ContentsOf, ActorsDistinct,
      TrainingProfileOk, SplitCount;
  }

  // ---- model actor identity ----

  predicate NulFree(text: seq<byte>) {
    0 !in text
  }

  lemma HeadOfCut(a: seq<byte>, x: seq<byte>)
    requires NulFree(a)
    ensures (a + ([0] + x))[0] == 0 <==> a == []
    ensures if a == [] then (a + ([0] + x))[1..] == x else (a + ([0] + x))[1..] == a[1..] + ([0] + x)
  {
    assert a != [] ==> a[0] in a;
  }

  lemma {:induction false} CutAtNul(a: seq<byte>, x: seq<byte>, b: seq<byte>, y: seq<byte>)
    requires NulFree(a) && NulFree(b) && a + ([0] + x) == b + ([0] + y)
    ensures a == b && x == y
    decreases |a|
  {
    HeadOfCut(a, x);
    HeadOfCut(b, y);
    if a != [] {
      assert (a + ([0] + x))[0] == a[0] && (b + ([0] + y))[0] == b[0];
      CutAtNul(a[1..], x, b[1..], y);
      assert a == [a[0]] + a[1..] && b == [b[0]] + b[1..];
    }
  }

  predicate FieldsNulFree(g: Generator) {
    NulFree(g.namespace) && NulFree(g.name) && NulFree(g.version) && NulFree(g.provider)
  }

  predicate SameFields(g: Generator, h: Generator) {
    && g.namespace == h.namespace && g.name == h.name && g.version == h.version && g.provider == h.provider
    && g.endpoint == h.endpoint
  }

  /** Generators share an actor entry exactly when all five key fields agree, as long as
      the first four hold no NUL; the model family is not part of the key. */
  lemma ActorKeyIdentifies(g: Generator, h: Generator)
    requires FieldsNulFree(g) && FieldsNulFree(h)
    ensures KeyOf(g) == KeyOf(h) <==> SameFields(g, h)
  {
    if KeyOf(g) == KeyOf(h) {
      hide NulFree;
      KeyNests(g);
      KeyNests(h);
      var g4, h4 := g.provider + ([0] + g.endpoint), h.provider + ([0] + h.endpoint);
      var g3, h3 := g.version + ([0] + g4), h.version + ([0] + h4);
      CutAtNul(g.namespace, g.name + ([0] + g3), h.namespace, h.name + ([0] + h3));
      CutAtNul(g.name, g3, h.name, h3);
      CutAtNul(g.version, g4, h.version, h4);
      CutAtNul(g.provider, g.endpoint, h.provider, h.endpoint);
    }
  }

  lemma KeyNests(g: Generator)
    ensures KeyOf(g)
            == g.namespace + ([0] + (g.name + ([0] + (g.version + ([0] + (g.provider + ([0] + g.endpoint)))))))
  {
  }

  predicate AllNulFree(g: Generator) {
    FieldsNulFree(g) && NulFree(g.endpoint)
  }

  function Nuls(s: seq<byte>): nat {
    if s == [] then 0 else (if s[0] == 0 then 1 else 0) + Nuls(s[1..])
  }

  lemma {:induction false} NulsAdd(a: seq<byte>, b: seq<byte>)
    ensures Nuls(a + b) == Nuls(a) + Nuls(b)
    decreases |a|
  {
    if a == [] {
      assert a + b == b;
    } else {
      assert (a + b)[1..] == a[1..] + b;
      NulsAdd(a[1..], b);
    }
  }

  lemma {:induction false} NulsNone(s: seq<byte>)
    ensures Nuls(s) == 0 <==> NulFree(s)
    decreases |s|
  {
    if s != [] {
      NulsNone(s[1..]);
      assert s == [s[0]] + s[1..];
    }
  }

  function FieldNuls(g: Generator): nat {
    Nuls(g.namespace) + Nuls(g.name) + Nuls(g.version) + Nuls(g.provider) + Nuls(g.endpoint)
  }

  /** A key holds its four separators and the NULs of its fields. */
  lemma KeyNuls(g: Generator)
    ensures Nuls(KeyOf(g)) == 4 + FieldNuls(g)
  {
    KeyNests(g);
    hide KeyOf;
    var g4 := g.provider + ([0] + g.endpoint);
    var g3 := g.version + ([0] + g4);
    var g2 := g.name + ([0] + g3);
    OneNul(g.provider, g.endpoint);
    OneNul(g.version, g4);
    OneNul(g.name, g3);
    OneNul(g.namespace, g2);
  }

  lemma OneNul(a: seq<byte>, b: seq<byte>)
    ensures Nuls(a + ([0] + b)) == Nuls(a) + 1 + Nuls(b)
  {
    NulsAdd(a, [0] + b);
    NulsAdd([0], b);
    assert Nuls([0]) == 1;
  }

  lemma FieldNulsNone(g: Generator)
    ensures FieldNuls(g) == 0 <==> AllNulFree(g)
  {
    NulsNone(g.namespace);
    NulsNone(g.name);
    NulsNone(g.version);
    NulsNone(g.provider);
    NulsNone(g.endpoint);
    hide Nuls, NulFree;
  }

  lemma CutOut(s: seq<byte>) returns (x: seq<byte>, y: seq<byte>)
    requires !NulFree(s)
    ensures s == x + [0] + y
  {
    var i :| 0 <= i < |s| && s[i] == 0;
    x, y := s[..i], s[i + 1..];
  }

  /** The separator moves to the NUL inside the field before it. */
  lemma MoveSeparator(x: seq<byte>, y: seq<byte>, f: seq<byte>, rest: seq<byte>)
    ensures (x + [0] + y) + ([0] + (f + rest)) == x + ([0] + ((y + [0] + f) + rest))
  {
  }

  /** A generator with a NUL in some key field has a double: other fields, same key. */
  lemma Double(g: Generator) returns (h: Generator)
    requires !AllNulFree(g)
    ensures KeyOf(h) == KeyOf(g) && !SameFields(g, h)
  {
    KeyNests(g);
    var g4 := g.provider + ([0] + g.endpoint);
    var g3 := g.version + ([0] + g4);
    if !NulFree(g.namespace) {
      var x, y := CutOut(g.namespace);
      h := g.(namespace := x, name := y + [0] + g.name);
      MoveSeparator(x, y, g.name, [0] + g3);
    } else if !NulFree(g.name) {
      var x, y := CutOut(g.name);
      h := g.(name := x, version := y + [0] + g.version);
      MoveSeparator(x, y, g.version, [0] + g4);
    } else if !NulFree(g.version) {
      var x, y := CutOut(g.version);
      h := g.(version := x, provider := y + [0] + g.provider);
      MoveSeparator(x, y, g.provider, [0] + g.endpoint);
    } else if !NulFree(g.provider) {
      var x, y := CutOut(g.provider);
      h := g.(provider := x, endpoint := y + [0] + g.endpoint);
      assert (x + [0] + y) + ([0] + g.endpoint) == x + ([0] + (y + [0] + g.endpoint));
    } else {
      var x, y := CutOut(g.endpoint);
      h := g.(provider := g.provider + [0] + x, endpoint := y);
      assert g.provider + ([0] + (x + [0] + y)) == (g.provider + [0] + x) + ([0] + y);
    }
    KeyNests(h);
    hide KeyOf;
  }

  /** The memo key stands for one actor exactly when none of its five fields holds a NUL. */
  lemma ActorKeyUniqueIff(g: Generator)
    ensures (forall h: Generator :: KeyOf(h) == KeyOf(g) ==> SameFields(g, h)) <==> AllNulFree(g)
  {
    hide KeyOf, SameFields;
    if AllNulFree(g) {
      forall h: Generator | KeyOf(h) == KeyOf(g) ensures SameFields(g, h) {
        KeyNuls(g);
        KeyNuls(h);
        FieldNulsNone(g);
        FieldNulsNone(h);
        ActorKeyIdentifies(g, h);
      }
    } else {
      var h := Double(g);
      assert KeyOf(h) == KeyOf(g) && !SameFields(g, h);
    }
  }

  /** A NUL in the endpoint is enough: the separator before it can move there. */
  lemma ActorKeysCollide(g: Generator, x: seq<byte>, y: seq<byte>)
    ensures var h, k := g.(endpoint := x + [0] + y), g.(provider := g.provider + [0] + x, endpoint := y);
            KeyOf(h) == KeyOf(k) && !SameFields(h, k)
  {
    var h, k := g.(endpoint := x + [0] + y), g.(provider := g.provider + [0] + x, endpoint := y);
    KeyNests(h);
    KeyNests(k);
    hide KeyOf;
    assert g.provider + ([0] + (x + [0] + y)) == (g.provider + [0] + x) + ([0] + y);
  }
}
