/** What every reader of a training sidecar checks before it hands out anything, and the
    writer before it returns the bytes: ids that are unique and not zero, and references
    that lead somewhere. */
module SidecarValidation {
  import opened Machine
  import opened CanonicalJson
  import opened SidecarTables
  import opened SidecarBuilder
  import opened TrainingSidecar

  // ---- the checks ----

  ghost predicate UniqueIds(ids: seq<nat>) {
    && (forall i :: 0 <= i < |ids| ==> ids[i] != 0)
    && (forall i, j :: 0 <= i < j < |ids| ==> ids[i] != ids[j])
  }

  /** `validate_unique` */
  method ValidateUnique(ids: seq<nat>) returns (r: Result<()>)
    ensures r.Ok? <==> UniqueIds(ids)
  {
    var seen: set<nat> := {};
    for i := 0 to |ids|
      invariant forall x :: x in seen <==> exists j :: 0 <= j < i && ids[j] == x
      invariant UniqueIds(ids[..i])
    {
      if ids[i] == 0 { return Err(BadSection); }
      if ids[i] in seen { return Err(BadSection); }
      seen := seen + {ids[i]};
    }
    assert ids[..|ids|] == ids;
    return Ok(());
  }

  /** One loop over a table, with the check of its entries. */
  method CheckAll<T>(entries: seq<T>, valid: T -> bool) returns (r: Result<()>)
    ensures r.Ok? <==> forall i :: 0 <= i < |entries| ==> valid(entries[i])
  {
    for i := 0 to |entries|
      invariant forall j :: 0 <= j < i ==> valid(entries[j])
    {
      if !valid(entries[i]) { return Err(BadSection); }
    }
    return Ok(());
  }

  /** `AiDescriptorTablesV1::payload_ref`: the length of the first entry of that number. */
  function LengthOf(refs: seq<PayloadRef>, ref: nat): (r: Option<nat>)
    ensures r.Some? ==> exists i :: 0 <= i < |refs| && refs[i].ref == ref && refs[i].length == r.value
    ensures r.None? ==> forall i :: 0 <= i < |refs| ==> refs[i].ref != ref
  {
    if refs == [] then None
    else if refs[0].ref == ref then Some(refs[0].length)
    else
      var rest := LengthOf(refs[1..], ref);
      assert forall i :: 0 < i < |refs| ==> refs[i] == refs[1..][i - 1];
      assert rest.Some? ==>
          exists i :: 0 <= i < |refs[1..]| && refs[1..][i].ref == ref && refs[1..][i].length == rest.value;
      rest
  }

  predicate Refers(ref: nat, ids: set<nat>) {
    ref == 0 || ref in ids
  }

  /** The ids of every table, as sets. */
  datatype Ids = Ids(payloads: set<nat>, strings: set<nat>, digests: set<nat>, policies: set<nat>, actors: set<nat>,
                     profiles: set<nat>, reviews: set<nat>, labels: set<nat>, records: set<nat>, samples: set<nat>,
                     splits: set<nat>, groups: set<nat>)

  function SetOf(ids: seq<nat>): set<nat> {
    set x | x in ids
  }

  function PayloadIds(t: Tables): (r: seq<nat>)
    ensures |r| == |t.payloadRefs| && forall i :: 0 <= i < |r| ==> r[i] == t.payloadRefs[i].ref
  {
    seq(|t.payloadRefs|, i requires 0 <= i < |t.payloadRefs| => t.payloadRefs[i].ref)
  }

  function StringIds(t: Tables): (r: seq<nat>)
    ensures |r| == |t.strings| && forall i :: 0 <= i < |r| ==> r[i] == t.strings[i].ref
  {
    seq(|t.strings|, i requires 0 <= i < |t.strings| => t.strings[i].ref)
  }

  function DigestIds(t: Tables): (r: seq<nat>)
    ensures |r| == |t.digests| && forall i :: 0 <= i < |r| ==> r[i] == t.digests[i].ref
  {
    seq(|t.digests|, i requires 0 <= i < |t.digests| => t.digests[i].ref)
  }

  function PolicyIds(t: Tables): (r: seq<nat>)
    ensures |r| == |t.policies| && forall i :: 0 <= i < |r| ==> r[i] == t.policies[i].ref
  {
    seq(|t.policies|, i requires 0 <= i < |t.policies| => t.policies[i].ref)
  }

  function ActorIds(t: Tables): (r: seq<nat>)
    ensures |r| == |t.actors| && forall i :: 0 <= i < |r| ==> r[i] == t.actors[i].id
  {
    seq(|t.actors|, i requires 0 <= i < |t.actors| => t.actors[i].id)
  }

  function SettingIds(t: Tables): (r: seq<nat>)
    ensures |r| == |t.profiles| && forall i :: 0 <= i < |r| ==> r[i] == t.profiles[i].id
  {
    seq(|t.profiles|, i requires 0 <= i < |t.profiles| => t.profiles[i].id)
  }

  function ReviewIds(t: Tables): (r: seq<nat>)
    ensures |r| == |t.reviews| && forall i :: 0 <= i < |r| ==> r[i] == t.reviews[i].id
  {
    seq(|t.reviews|, i requires 0 <= i < |t.reviews| => t.reviews[i].id)
  }

  function LabelIds(t: Tables): (r: seq<nat>)
    ensures |r| == |t.labels| && forall i :: 0 <= i < |r| ==> r[i] == t.labels[i].id
  {
    seq(|t.labels|, i requires 0 <= i < |t.labels| => t.labels[i].id)
  }

  function RecordIds(t: Tables): (r: seq<nat>)
    ensures |r| == |t.provenance| && forall i :: 0 <= i < |r| ==> r[i] == t.provenance[i].id
  {
    seq(|t.provenance|, i requires 0 <= i < |t.provenance| => t.provenance[i].id)
  }

  function SampleIds(samples: seq<SampleEntry>): (r: seq<nat>)
    ensures |r| == |samples| && forall i :: 0 <= i < |r| ==> r[i] == samples[i].id
  {
    seq(|samples|, i requires 0 <= i < |samples| => samples[i].id)
  }

  function SplitIds(splits: seq<SplitEntry>): (r: seq<nat>)
    ensures |r| == |splits| && forall i :: 0 <= i < |r| ==> r[i] == splits[i].id
  {
    seq(|splits|, i requires 0 <= i < |splits| => splits[i].id)
  }

  function GroupIds(groups: seq<GroupEntry>): (r: seq<nat>)
    ensures |r| == |groups| && forall i :: 0 <= i < |r| ==> r[i] == groups[i].id
  {
    seq(|groups|, i requires 0 <= i < |groups| => groups[i].id)
  }

  function PlanIds(plans: seq<PlanEntry>): (r: seq<nat>)
    ensures |r| == |plans| && forall i :: 0 <= i < |r| ==> r[i] == plans[i].id
  {
    seq(|plans|, i requires 0 <= i < |plans| => plans[i].id)
  }

  function AllIds(c: Sidecar): Ids {
    var t := c.tables;
    Ids(SetOf(PayloadIds(t)), SetOf(StringIds(t)), SetOf(DigestIds(t)), SetOf(PolicyIds(t)), SetOf(ActorIds(t)),
        SetOf(SettingIds(t)), SetOf(ReviewIds(t)), SetOf(LabelIds(t)), SetOf(RecordIds(t)), SetOf(SampleIds(c.samples)),
        SetOf(SplitIds(c.splits)), SetOf(GroupIds(c.groups)))
  }

  // ---- `validate` of every kind of entry ----

  predicate Storable(e: PayloadRef, size: nat) {
    e.offset + e.length <= size
  }

  predicate StringValid(e: StringEntry, refs: seq<PayloadRef>) {
    e.payloadRef != 0 && LengthOf(refs, e.payloadRef) == Some(e.length)
  }

  predicate DigestValid(e: DigestEntry, refs: seq<PayloadRef>) {
    e.payloadRef != 0 && LengthOf(refs, e.payloadRef) == Some(DIGEST_LEN)
  }

  predicate PolicyValid(e: PolicyEntry, ids: Ids) {
    && e.kind < POLICY_KINDS && Refers(e.payloadRef, ids.payloads) && Refers(e.digestRef, ids.digests)
    && (e.payloadRef != 0 ==> e.digestRef != 0)
  }

  predicate TrainingProfileValid(p: TrainingProfile, ids: Ids) {
    && Refers(p.splitPolicyRef, ids.policies) && Refers(p.dedupPolicyRef, ids.policies)
    && Refers(p.licenseRef, ids.policies)
    && Refers(p.provenanceRef, ids.records)
  }

  predicate SplitValid(e: SplitEntry, ids: Ids) {
    && Refers(e.snapshotRef, ids.payloads) && Refers(e.hashRef, ids.payloads) && Refers(e.groupingRef, ids.payloads)
    && Refers(e.filterRef, ids.policies) && Refers(e.orderingRef, ids.policies) && Refers(e.dedupRef, ids.policies)
  }

  predicate GroupValid(e: GroupEntry, ids: Ids) {
    Refers(e.policyRef, ids.policies) && Refers(e.canonical, ids.samples)
  }

  predicate SampleValid(e: SampleEntry, ids: Ids) {
    && Refers(e.split, ids.splits) && Refers(e.dedupGroupRef, ids.groups) && Refers(e.labelRef, ids.labels)
    && Refers(e.provenanceRef, ids.records) && Refers(e.sourceRef, ids.payloads) && Refers(e.evidenceRef, ids.payloads)
    && Refers(e.inputRef, ids.payloads) && Refers(e.targetRef, ids.payloads) && Refers(e.metadataRef, ids.payloads)
    && Refers(e.licenseRef, ids.policies) && Refers(e.policyRef, ids.policies)
  }

  predicate PlanValid(e: PlanEntry, ids: Ids) {
    Refers(e.split, ids.splits) && Refers(e.rngRef, ids.payloads) && Refers(e.permutationRef, ids.payloads)
  }

  /** Label kinds and authorities: 0 to 6, and 255. */
  predicate LabelKindOk(kind: byte) {
    kind <= 6 || kind == 255
  }

  predicate ReviewKindOk(kind: byte) {
    kind <= 15 || kind == 255
  }

  predicate LabelValid(e: LabelEntry, ids: Ids) {
    && LabelKindOk(e.kind) && LabelKindOk(e.authority) && e.confidence <= PPM
    && Refers(e.payloadRef, ids.payloads) && Refers(e.evidenceRef, ids.payloads) && Refers(e.policyRef, ids.policies)
    && Refers(e.provenanceRef, ids.records) && Refers(e.reviewRef, ids.reviews)
  }

  predicate PairValid(e: PairEntry, ids: Ids) {
    && Refers(e.promptRef, ids.payloads) && Refers(e.chosenRef, ids.payloads) && Refers(e.rejectedRef, ids.payloads)
    && Refers(e.evidenceRef, ids.payloads) && Refers(e.policyRef, ids.policies) && Refers(e.provenanceRef, ids.records)
    && Refers(e.reviewRef, ids.reviews)
  }

  predicate ActorValid(e: ActorEntry, ids: Ids) {
    && Refers(e.namespaceRef, ids.strings) && Refers(e.nameRef, ids.strings) && Refers(e.versionRef, ids.strings)
    && Refers(e.providerRef, ids.strings) && Refers(e.endpointRef, ids.strings) && Refers(e.familyRef, ids.strings)
    && Refers(e.policyRef, ids.policies)
  }

  predicate SettingsValid(e: ProfileEntry, topP: Json -> nat) {
    topP(e.settings) <= PPM
  }

  predicate ReviewValid(e: ReviewEntry, ids: Ids) {
    && ReviewKindOk(e.kind) && e.rating <= PPM && Refers(e.roleRef, ids.strings) && Refers(e.notesRef, ids.payloads)
    && Refers(e.policyRef, ids.policies)
  }

  predicate RecordValid(e: ProvenanceEntry, ids: Ids) {
    && e.confidence <= PPM && e.actorRef != 0 && Refers(e.actorRef, ids.actors) && Refers(e.profileRef, ids.profiles)
    && Refers(e.reviewRef, ids.reviews) && Refers(e.promptRef, ids.payloads) && Refers(e.sampleRef, ids.samples)
    && Refers(e.policyRef, ids.policies)
  }

  // ---- the whole validation ----

  function PairIds(t: Tables): seq<nat> {
    PairsIn(t.pairs)
  }

  ghost predicate AllUnique(c: Sidecar) {
    var t := c.tables;
    && UniqueIds(StringIds(t)) && UniqueIds(DigestIds(t)) && UniqueIds(PayloadIds(t)) && UniqueIds(PolicyIds(t))
    && UniqueIds(SampleIds(c.samples)) && UniqueIds(SplitIds(c.splits)) && UniqueIds(GroupIds(c.groups))
    && UniqueIds(PlanIds(c.plans)) && UniqueIds(LabelIds(t)) && UniqueIds(PairIds(t)) && UniqueIds(RecordIds(t))
    && UniqueIds(ActorIds(t)) && UniqueIds(SettingIds(t)) && UniqueIds(ReviewIds(t))
  }

  ghost predicate TextsValid(c: Sidecar) {
    var t := c.tables;
    && (forall i :: 0 <= i < |t.payloadRefs| ==> Storable(t.payloadRefs[i], |c.payload|))
    && (forall i :: 0 <= i < |t.strings| ==> StringValid(t.strings[i], t.payloadRefs))
    && (forall i :: 0 <= i < |t.digests| ==> DigestValid(t.digests[i], t.payloadRefs))
    && (forall i :: 0 <= i < |t.policies| ==> PolicyValid(t.policies[i], AllIds(c)))
  }

  ghost predicate SummariesValid(c: Sidecar) {
    && TrainingProfileValid(c.profile, AllIds(c))
    && (forall i :: 0 <= i < |c.splits| ==> SplitValid(c.splits[i], AllIds(c)))
    && (forall i :: 0 <= i < |c.groups| ==> GroupValid(c.groups[i], AllIds(c)))
    && (forall i :: 0 <= i < |c.samples| ==> SampleValid(c.samples[i], AllIds(c)))
    && (forall i :: 0 <= i < |c.plans| ==> PlanValid(c.plans[i], AllIds(c)))
  }

  ghost predicate RecordsValid(c: Sidecar, topP: Json -> nat) {
    var t := c.tables;
    && (forall i :: 0 <= i < |t.labels| ==> LabelValid(t.labels[i], AllIds(c)))
    && (forall i :: 0 <= i < |t.pairs| ==> PairValid(t.pairs[i], AllIds(c)))
    && (forall i :: 0 <= i < |t.actors| ==> ActorValid(t.actors[i], AllIds(c)))
    && (forall i :: 0 <= i < |t.profiles| ==> SettingsValid(t.profiles[i], topP))
    && (forall i :: 0 <= i < |t.reviews| ==> ReviewValid(t.reviews[i], AllIds(c)))
    && (forall i :: 0 <= i < |t.provenance| ==> RecordValid(t.provenance[i], AllIds(c)))
  }

  ghost predicate Validates(c: Sidecar, topP: Json -> nat) {
    AllUnique(c) && TextsValid(c) && SummariesValid(c) && RecordsValid(c, topP)
  }

  method CheckUnique(c: Sidecar) returns (r: Result<()>)
    ensures r.Ok? <==> AllUnique(c)
  {
    hide UniqueIds;
    var t := c.tables;
    var _ :- ValidateUnique(StringIds(t));
    var _ :- ValidateUnique(DigestIds(t));
    var _ :- ValidateUnique(PayloadIds(t));
    var _ :- ValidateUnique(PolicyIds(t));
    var _ :- ValidateUnique(SampleIds(c.samples));
    var _ :- ValidateUnique(SplitIds(c.splits));
    var _ :- ValidateUnique(GroupIds(c.groups));
    var _ :- ValidateUnique(PlanIds(c.plans));
    var _ :- ValidateUnique(LabelIds(t));
    var _ :- ValidateUnique(PairIds(t));
    var _ :- ValidateUnique(RecordIds(t));
    var _ :- ValidateUnique(ActorIds(t));
    var _ :- ValidateUnique(SettingIds(t));
    r := ValidateUnique(ReviewIds(t));
  }

  method CheckTexts(c: Sidecar) returns (r: Result<()>)
    ensures r.Ok? <==> TextsValid(c)
  {
    hide Storable, StringValid, DigestValid, PolicyValid, AllIds;
    var t, ids := c.tables, AllIds(c);
    var _ :- CheckAll(t.payloadRefs, e => Storable(e, |c.payload|));
    var _ :- CheckAll(t.strings, e => StringValid(e, t.payloadRefs));
    var _ :- CheckAll(t.digests, e => DigestValid(e, t.payloadRefs));
    r := CheckAll(t.policies, e => PolicyValid(e, ids));
  }

  method CheckSummaries(c: Sidecar) returns (r: Result<()>)
    ensures r.Ok? <==> SummariesValid(c)
  {
    hide TrainingProfileValid, SplitValid, GroupValid, SampleValid, PlanValid, AllIds;
    var ids := AllIds(c);
    if !TrainingProfileValid(c.profile, ids) { return Err(BadSection); }
    var _ :- CheckAll(c.splits, e => SplitValid(e, ids));
    var _ :- CheckAll(c.groups, e => GroupValid(e, ids));
    var _ :- CheckAll(c.samples, e => SampleValid(e, ids));
    r := CheckAll(c.plans, e => PlanValid(e, ids));
  }

  method CheckRecords(c: Sidecar, topP: Json -> nat) returns (r: Result<()>)
    ensures r.Ok? <==> RecordsValid(c, topP)
  {
    hide LabelValid, PairValid, ActorValid, SettingsValid, ReviewValid, RecordValid, AllIds;
    var t, ids := c.tables, AllIds(c);
    var _ :- CheckAll(t.labels, e => LabelValid(e, ids));
    var _ :- CheckAll(t.pairs, e => PairValid(e, ids));
    var _ :- CheckAll(t.actors, e => ActorValid(e, ids));
    var _ :- CheckAll(t.profiles, e => SettingsValid(e, topP));
    var _ :- CheckAll(t.reviews, e => ReviewValid(e, ids));
    r := CheckAll(t.provenance, e => RecordValid(e, ids));
  }

  /** `AiDescriptorTablesV1::validate` on the tables an import fills. */
  method Validate(c: Sidecar, topP: Json -> nat) returns (r: Result<()>)
    ensures r.Ok? <==> Validates(c, topP)
  {
    hide AllUnique, TextsValid, SummariesValid, RecordsValid;
    var _ :- CheckUnique(c);
    var _ :- CheckTexts(c);
    var _ :- CheckSummaries(c);
    r := CheckRecords(c, topP);
  }

  // ---- built tables ----

  /** What an import's samples must meet for its sidecar to be readable: ids that differ
      and are not zero, texts that fit their length field, and settings and kinds the
      format knows. */
  ghost predicate Admissible(samples: seq<Sample>, topP: Json -> nat) {
    && UniqueIds(OwnIds(samples))
    && (forall i :: 0 <= i < |samples| ==> KindsOk(samples[i]))
    && (forall i :: 0 <= i < |AddAll(samples).c.texts| ==> |AddAll(samples).c.texts[i]| <= U32_MAX)
    && (forall i :: 0 <= i < |AddAll(samples).c.settings| ==> topP(AddAll(samples).c.settings[i]) <= PPM)
  }

  function OwnIds(samples: seq<Sample>): (r: seq<nat>)
    ensures |r| == |samples| && forall i :: 0 <= i < |r| ==> r[i] == samples[i].id
  {
    seq(|samples|, i requires 0 <= i < |samples| => samples[i].id)
  }

  ghost predicate KindsOk(s: Sample) {
    && (s.review.Some? ==> ReviewKindOk(s.review.value.kind))
    && (forall i :: 0 <= i < |s.labels| ==> LabelKindOk(s.labels[i].kind) && LabelKindOk(s.labels[i].authority))
  }

  /** Every reference that was issued is among the ids. */
  ghost predicate Covers(ids: set<nat>, n: nat) {
    forall ref: nat {:trigger Refers(ref, ids)} :: Issued(ref, n) ==> Refers(ref, ids)
  }

  /** Ids counted from 1 are unique and cover what was issued. */
  lemma Dense(ids: seq<nat>)
    requires forall i :: 0 <= i < |ids| ==> ids[i] == i + 1
    ensures UniqueIds(ids) && Covers(SetOf(ids), |ids|)
  {
    forall ref: nat | 0 < ref <= |ids| ensures ref in SetOf(ids) {
      assert ids[ref - 1] == ref;
    }
  }

  lemma PayloadsDense(l: Log, sha: seq<byte> -> seq<byte>)
    requires LogOk(l, sha)
    ensures UniqueIds(PayloadIds(l.t)) && Covers(SetOf(PayloadIds(l.t)), |l.pushed|)
  {
    forall i | 0 <= i < |l.pushed| ensures PayloadIds(l.t)[i] == i + 1 {
      hide Concat, RefsOf;
      RefsTile(l.pushed, i);
    }
    Dense(PayloadIds(l.t));
  }

  lemma TextTablesDense(l: Log, sha: seq<byte> -> seq<byte>)
    requires LogOk(l, sha)
    ensures UniqueIds(StringIds(l.t)) && Covers(SetOf(StringIds(l.t)), |l.t.strings|)
    ensures UniqueIds(DigestIds(l.t)) && Covers(SetOf(DigestIds(l.t)), |l.t.digests|)
    ensures UniqueIds(PolicyIds(l.t)) && Covers(SetOf(PolicyIds(l.t)), |l.t.policies|)
  {
    forall i | 0 <= i < |l.t.strings| ensures StringIds(l.t)[i] == i + 1 { assert StringOk(l, i); }
    forall i | 0 <= i < |l.t.digests| ensures DigestIds(l.t)[i] == i + 1 { assert DigestOk(l, i); }
    forall i | 0 <= i < |l.t.policies| ensures PolicyIds(l.t)[i] == i + 1 { assert PolicyOk(l, sha, i); }
    hide LogOk;
    Dense(StringIds(l.t));
    Dense(DigestIds(l.t));
    Dense(PolicyIds(l.t));
  }

  lemma ActorTablesDense(l: Log, sha: seq<byte> -> seq<byte>)
    requires LogOk(l, sha)
    ensures UniqueIds(ActorIds(l.t)) && Covers(SetOf(ActorIds(l.t)), |l.t.actors|)
    ensures UniqueIds(SettingIds(l.t)) && Covers(SetOf(SettingIds(l.t)), |l.t.profiles|)
    ensures UniqueIds(ReviewIds(l.t)) && Covers(SetOf(ReviewIds(l.t)), |l.t.reviews|)
    ensures UniqueIds(LabelIds(l.t)) && Covers(SetOf(LabelIds(l.t)), |l.t.labels|)
  {
    forall i | 0 <= i < |l.t.actors| ensures ActorIds(l.t)[i] == i + 1 { assert ActorOk(l, i); }
    forall i | 0 <= i < |l.t.profiles| ensures SettingIds(l.t)[i] == i + 1 { assert ProfileOk(l, i); }
    forall i | 0 <= i < |l.t.reviews| ensures ReviewIds(l.t)[i] == i + 1 { assert ReviewOk(l, i); }
    forall i | 0 <= i < |l.t.labels| ensures LabelIds(l.t)[i] == i + 1 { assert LabelOk(l, i); }
    hide LogOk, Proper;
    Dense(ActorIds(l.t));
    Dense(SettingIds(l.t));
    Dense(ReviewIds(l.t));
    Dense(LabelIds(l.t));
  }

  lemma RecordsCover(l: Log, ref: nat)
    requires ProvenanceIssued(l, ref)
    ensures Refers(ref, SetOf(RecordIds(l.t)))
  {
    if ref != 0 {
      var i :| 0 <= i < |l.t.provenance| && l.t.provenance[i].id == ref;
      assert RecordIds(l.t)[i] == ref;
    }
  }

  // ---- the ids samples bring ----

  lemma {:induction false} AddTextsOnly(b: Brought, texts: seq<seq<byte>>)
    ensures AddTexts(b, texts) == b.(c := b.c.(texts := AddTexts(b, texts).c.texts))
    decreases |texts|
  {
    if texts != [] { AddTextsOnly(b, texts[..|texts| - 1]); }
  }

  function KindsOfAll(labels: seq<Label>): (r: seq<(byte, byte)>)
    ensures |r| == |labels| && forall i :: 0 <= i < |r| ==> r[i] == (labels[i].kind, labels[i].authority)
  {
    seq(|labels|, i requires 0 <= i < |labels| => (labels[i].kind, labels[i].authority))
  }

  lemma {:induction false} AddLabelsOnly(b: Brought, labels: seq<Label>)
    ensures AddLabels(b, labels) == b.(c := b.c.(labels := b.c.labels + KindsOfAll(labels)))
    decreases |labels|
  {
    if labels == [] {
      assert b.c.labels + KindsOfAll(labels) == b.c.labels;
    } else {
      var front, last := labels[..|labels| - 1], labels[|labels| - 1];
      AddLabelsOnly(b, front);
      assert KindsOfAll(labels) == KindsOfAll(front) + [(last.kind, last.authority)];
      assert b.c.labels + KindsOfAll(labels) == (b.c.labels + KindsOfAll(front)) + [(last.kind, last.authority)];
    }
  }

  /** One sample adds its labels and its review, and itself to records and pairs. */
  lemma SampleAdds(b: Brought, s: Sample)
    ensures AddSample(b, s).c.labels == b.c.labels + KindsOfAll(s.labels)
    ensures AddSample(b, s).c.reviews == b.c.reviews + if s.review.Some? then [s.review.value.kind] else []
    ensures AddSample(b, s).c.provenance == b.c.provenance + if s.generator.Some? then [s.id] else []
    ensures AddSample(b, s).c.pairs == b.c.pairs + if s.pair.Some? then [s.id] else []
  {
    OriginsAdd(b, s);
    AddLabelsOnly(AddOrigins(b, s), s.labels);
    hide AddOrigins, AddLabels;
  }

  lemma OriginsAdd(b: Brought, s: Sample)
    ensures AddOrigins(b, s).c.labels == b.c.labels && AddOrigins(b, s).c.pairs == b.c.pairs
    ensures AddOrigins(b, s).c.reviews == b.c.reviews + if s.review.Some? then [s.review.value.kind] else []
    ensures AddOrigins(b, s).c.provenance == b.c.provenance + if s.generator.Some? then [s.id] else []
  {
    var reviewed := if s.review.Some? then AddReview(b, s.review.value) else b;
    if s.generator.Some? { AddTextsOnly(reviewed, Texts(s.generator.value)); }
    hide AddTexts, Texts, KeyOf, CanonicalText;
  }

  /** Every id is one of these. */
  ghost predicate Among(ids: seq<nat>, all: seq<nat>) {
    forall i :: 0 <= i < |ids| ==> ids[i] in all
  }

  lemma AmongMore(ids: seq<nat>, all: seq<nat>, id: nat, taken: bool)
    requires Among(ids, all)
    ensures var more := ids + if taken then [id] else [];
            && Among(more, all + [id])
            && (UniqueIds(ids) && UniqueIds(all + [id]) ==> UniqueIds(more))
  {
    var more := ids + if taken then [id] else [];
    forall i | 0 <= i < |more| ensures more[i] in all + [id] {
      if i < |ids| { assert ids[i] in all; }
    }
    if taken && UniqueIds(ids) && UniqueIds(all + [id]) {
      assert (all + [id])[|all|] == id;
      forall i | 0 <= i < |ids| ensures ids[i] != id {
        var j :| 0 <= j < |all| && all[j] == ids[i];
        assert (all + [id])[j] == all[j];
      }
    }
  }

  /** Records and pairs speak of samples, each of one at most once. */
  lemma {:induction false} BroughtIds(samples: seq<Sample>)
    ensures var c, ids := AddAll(samples).c, OwnIds(samples);
            && Among(c.provenance, ids) && Among(c.pairs, ids)
            && (UniqueIds(ids) ==> UniqueIds(c.provenance) && UniqueIds(c.pairs))
    decreases |samples|
  {
    if samples != [] {
      var front, last := samples[..|samples| - 1], samples[|samples| - 1];
      BroughtIds(front);
      SampleAdds(AddAll(front), last);
      assert OwnIds(samples) == OwnIds(front) + [last.id];
      FrontUnique(OwnIds(front), last.id);
      hide AddSample, UniqueIds, Among, OwnIds;
      AmongMore(AddAll(front).c.provenance, OwnIds(front), last.id, last.generator.Some?);
      AmongMore(AddAll(front).c.pairs, OwnIds(front), last.id, last.pair.Some?);
    }
  }

  lemma FrontUnique(ids: seq<nat>, id: nat)
    ensures UniqueIds(ids + [id]) ==> UniqueIds(ids)
  {
    forall i | 0 <= i < |ids| ensures (ids + [id])[i] == ids[i] {}
  }

  ghost predicate LabelKindsOk(kinds: seq<(byte, byte)>) {
    forall i :: 0 <= i < |kinds| ==> LabelKindOk(kinds[i].0) && LabelKindOk(kinds[i].1)
  }

  ghost predicate ReviewKindsOk(kinds: seq<byte>) {
    forall i :: 0 <= i < |kinds| ==> ReviewKindOk(kinds[i])
  }

  lemma KindsJoin(a: seq<(byte, byte)>, b: seq<(byte, byte)>)
    ensures LabelKindsOk(a + b) <==> LabelKindsOk(a) && LabelKindsOk(b)
  {
    if LabelKindsOk(a + b) {
      forall i | 0 <= i < |a| ensures LabelKindOk(a[i].0) && LabelKindOk(a[i].1) { assert (a + b)[i] == a[i]; }
      forall i | 0 <= i < |b| ensures LabelKindOk(b[i].0) && LabelKindOk(b[i].1) { assert (a + b)[|a| + i] == b[i]; }
    }
  }

  lemma ReviewsJoin(a: seq<byte>, b: seq<byte>)
    ensures ReviewKindsOk(a + b) <==> ReviewKindsOk(a) && ReviewKindsOk(b)
  {
    if ReviewKindsOk(a + b) {
      forall i | 0 <= i < |a| ensures ReviewKindOk(a[i]) { assert (a + b)[i] == a[i]; }
      forall i | 0 <= i < |b| ensures ReviewKindOk(b[i]) { assert (a + b)[|a| + i] == b[i]; }
    }
  }

  lemma SampleKinds(s: Sample)
    ensures KindsOk(s) <==> LabelKindsOk(KindsOfAll(s.labels))
                            && ReviewKindsOk(if s.review.Some? then [s.review.value.kind] else [])
  {
    if LabelKindsOk(KindsOfAll(s.labels)) {
      forall i | 0 <= i < |s.labels| ensures LabelKindOk(s.labels[i].kind) && LabelKindOk(s.labels[i].authority) {
        assert KindsOfAll(s.labels)[i] == (s.labels[i].kind, s.labels[i].authority);
      }
    }
    if s.review.Some? { assert [s.review.value.kind][0] == s.review.value.kind; }
  }

  lemma {:induction false} BroughtKinds(samples: seq<Sample>)
    ensures (forall i :: 0 <= i < |samples| ==> KindsOk(samples[i]))
            <==> LabelKindsOk(AddAll(samples).c.labels) && ReviewKindsOk(AddAll(samples).c.reviews)
    decreases |samples|
  {
    if samples != [] {
      var front, last := samples[..|samples| - 1], samples[|samples| - 1];
      BroughtKinds(front);
      SampleAdds(AddAll(front), last);
      SampleKinds(last);
      hide AddSample, KindsOk, LabelKindsOk, ReviewKindsOk;
      KindsJoin(AddAll(front).c.labels, KindsOfAll(last.labels));
      ReviewsJoin(AddAll(front).c.reviews, if last.review.Some? then [last.review.value.kind] else []);
      assert forall i :: 0 <= i < |front| ==> samples[i] == front[i];
    }
  }

  // ---- when built tables pass ----

  /** The record ids: those of the samples, 0 counting as 1. */
  lemma RecordsUnique(l: Log, sha: seq<byte> -> seq<byte>)
    requires LogOk(l, sha) && UniqueIds(SamplesIn(l.t.provenance))
    ensures UniqueIds(RecordIds(l.t))
  {
    forall i | 0 <= i < |l.t.provenance| ensures RecordIds(l.t)[i] == SamplesIn(l.t.provenance)[i] {
      assert ProvenanceOk(l, i) && SamplesIn(l.t.provenance)[i] != 0;
    }
  }

  lemma SummariesUnique(c: Sidecar, l: Log, samples: seq<Sample>, groups: seq<Pair<nat>>, refs: PlanRefs,
                        plan: Option<Plan>, seed: nat)
    requires GroupsOk(groups, samples) && GroupEntriesOk(c.groups, groups, samples, c.profile.dedupPolicyRef)
    requires SamplesStored(l, c.samples, samples, groups)
    requires SplitsOk(c.splits, refs, seed, samples) && PlansOk(c.plans, refs, plan, seed)
    ensures SampleIds(c.samples) == OwnIds(samples)
    ensures UniqueIds(SplitIds(c.splits)) && UniqueIds(GroupIds(c.groups)) && UniqueIds(PlanIds(c.plans))
    ensures Covers(SetOf(SplitIds(c.splits)), 3)
    ensures forall i :: 0 <= i < |samples| ==> Refers(GroupRef(groups, samples[i]), SetOf(GroupIds(c.groups)))
  {
    hide SampleStored, HasKey, SmallestWithKey, SplitCount;
    forall i | 0 <= i < |samples| ensures SampleIds(c.samples)[i] == samples[i].id {
      assert EntryOk(l, c.samples[i], samples[i], groups);
    }
    Dense(SplitIds(c.splits));
    forall i | 0 <= i < |c.plans| ensures PlanIds(c.plans)[i] == c.plans[i].split > 0 {
      assert PlanIs(c.plans[i], refs, seed);
    }
    forall i | 0 <= i < |samples| ensures Refers(GroupRef(groups, samples[i]), SetOf(GroupIds(c.groups))) {
      GroupCovered(c.groups, groups, samples, c.profile.dedupPolicyRef, i);
    }
  }

  lemma GroupCovered(entries: seq<GroupEntry>, groups: seq<Pair<nat>>, samples: seq<Sample>, policyRef: nat, i: nat)
    requires GroupEntriesOk(entries, groups, samples, policyRef) && i < |samples|
    ensures Refers(GroupRef(groups, samples[i]), SetOf(GroupIds(entries)))
  {
    if samples[i].dedupKey.Some? && Find(groups, samples[i].dedupKey.value).Some? {
      var key := samples[i].dedupKey.value;
      var k :| 0 <= k < |groups| && groups[k] == Pair(key, Find(groups, key).value);
      assert GroupIds(entries)[k] == groups[k].value;
    }
  }

  lemma LengthStored(pushed: seq<seq<byte>>, ref: nat)
    requires Named(ref, |pushed|)
    ensures LengthOf(RefsOf(pushed), ref) == Some(|pushed[ref - 1]|)
  {
    hide RefsOf, Concat;
    var refs := RefsOf(pushed);
    RefsTile(pushed, ref - 1);
    var found := LengthOf(refs, ref);
    assert found.Some?;
    var i :| 0 <= i < |refs| && refs[i].ref == ref && refs[i].length == found.value;
    RefsTile(pushed, i);
  }

  lemma StringValidIff(l: Log, sha: seq<byte> -> seq<byte>, i: nat)
    requires LogOk(l, sha) && i < |l.t.strings|
    ensures StringValid(l.t.strings[i], l.t.payloadRefs) <==> |TextsIn(l.pushed, l.t.strings)[i]| <= U32_MAX
  {
    assert StringOk(l, i);
    LengthStored(l.pushed, l.t.strings[i].payloadRef);
    hide LogOk, RefsOf, LengthOf;
  }

  lemma PayloadStorable(pushed: seq<seq<byte>>, i: nat)
    requires i < |pushed|
    ensures Storable(RefsOf(pushed)[i], |Concat(pushed)|)
  {
    hide RefsOf, Concat;
    RefsTile(pushed, i);
  }

  lemma DigestPolicyValid(l: Log, sha: seq<byte> -> seq<byte>, ids: Ids, i: nat)
    requires LogOk(l, sha) && Covers(ids.payloads, |l.pushed|) && Covers(ids.digests, |l.t.digests|)
    ensures i < |l.t.digests| ==> DigestValid(l.t.digests[i], l.t.payloadRefs)
    ensures i < |l.t.policies| ==> PolicyValid(l.t.policies[i], ids)
  {
    if i < |l.t.digests| {
      assert DigestOk(l, i);
      LengthStored(l.pushed, l.t.digests[i].payloadRef);
    }
    if i < |l.t.policies| { assert PolicyOk(l, sha, i); }
    hide LogOk, RefsOf, LengthOf, Refers;
  }

  /** The texts pass exactly when each fits its length field. */
  lemma TextsValidIff(c: Sidecar, l: Log, sha: seq<byte> -> seq<byte>)
    requires LogOk(l, sha) && l.t == c.tables && c.payload == Concat(l.pushed)
    ensures var texts := TextsIn(l.pushed, l.t.strings);
            TextsValid(c) <==> forall i :: 0 <= i < |texts| ==> |texts[i]| <= U32_MAX
  {
    var t, ids, texts := c.tables, AllIds(c), TextsIn(l.pushed, l.t.strings);
    PayloadsDense(l, sha);
    TextTablesDense(l, sha);
    assert t.payloadRefs == RefsOf(l.pushed);
    hide LogOk, RefsOf, Concat, TextsIn, StringValid, DigestValid, PolicyValid, Storable, UniqueIds, Covers;
    forall i | 0 <= i < |t.payloadRefs|
      ensures Storable(t.payloadRefs[i], |c.payload|)
    {
      PayloadStorable(l.pushed, i);
    }
    forall i | 0 <= i < |t.strings| ensures StringValid(t.strings[i], t.payloadRefs) <==> |texts[i]| <= U32_MAX {
      StringValidIff(l, sha, i);
    }
    forall i: nat ensures i < |t.digests| ==> DigestValid(t.digests[i], t.payloadRefs)
                  ensures i < |t.policies| ==> PolicyValid(t.policies[i], ids)
    {
      DigestPolicyValid(l, sha, ids, i);
    }
  }

  lemma SampleIssued(l: Log, e: SampleEntry, s: Sample)
    requires SampleStored(l, e, s)
    ensures Issued(e.inputRef, |l.pushed|) && Issued(e.targetRef, |l.pushed|) && Issued(e.metadataRef, |l.pushed|)
    ensures Issued(e.sourceRef, |l.pushed|) && Issued(e.evidenceRef, |l.pushed|) && e.split == s.split
    ensures Issued(e.policyRef, |l.t.policies|) && Issued(e.licenseRef, |l.t.policies|)
    ensures Issued(e.labelRef, |l.t.labels|) && ProvenanceIssued(l, e.provenanceRef)
  {
    hide PairStored;
    var reviewRef: nat :| OriginsStored(l, s, e.policyRef, reviewRef, e.provenanceRef)
      && LabelsStored(l, e, s, reviewRef);
    OriginsIssued(l, s, e.policyRef, reviewRef, e.provenanceRef);
    var first: nat :| e.labelRef == LabelRefOf(first, |s.labels|)
      && LabelRun(l, first, s.labels, |s.labels|, e.provenanceRef, reviewRef, e.evidenceRef, e.policyRef);
    if s.labels != [] {
      assert LabelAt(l, first, 0, s.labels[0], e.provenanceRef, reviewRef, e.evidenceRef, e.policyRef);
    }
  }

  lemma SampleRefers(l: Log, e: SampleEntry, s: Sample, ids: Ids)
    requires SampleStored(l, e, s) && IsSplit(s.split) && Refers(e.dedupGroupRef, ids.groups)
    requires Covers(ids.payloads, |l.pushed|) && Covers(ids.policies, |l.t.policies|)
    requires Covers(ids.labels, |l.t.labels|)
    requires Covers(ids.splits, 3) && ids.records == SetOf(RecordIds(l.t))
    ensures SampleValid(e, ids)
  {
    SampleIssued(l, e, s);
    RecordsCover(l, e.provenanceRef);
    hide SampleStored, Refers, ProvenanceIssued;
  }

  lemma PlanRefsIssued(l: Log, refs: PlanRefs, plan: Option<Plan>)
    requires PlanStored(l, refs, plan)
    ensures Issued(refs.snapshot, |l.pushed|) && Issued(refs.hash, |l.pushed|) && Issued(refs.grouping, |l.pushed|)
    ensures Issued(refs.rng, |l.pushed|) && Issued(refs.permutation, |l.pushed|)
    ensures Issued(refs.filter, |l.t.policies|) && Issued(refs.ordering, |l.t.policies|)
    ensures Issued(refs.dedup, |l.t.policies|)
  {
  }

  lemma CanonicalIsSample(entries: seq<GroupEntry>, groups: seq<Pair<nat>>, samples: seq<Sample>, policyRef: nat,
                          i: nat)
    requires GroupEntriesOk(entries, groups, samples, policyRef) && i < |entries|
    ensures entries[i].policyRef == policyRef && entries[i].canonical in SetOf(OwnIds(samples))
  {
    assert SmallestWithKey(samples, groups[i].key, entries[i].canonical);
    var j :| 0 <= j < |samples| && samples[j].dedupKey == Some(groups[i].key) && samples[j].id == entries[i].canonical;
    assert OwnIds(samples)[j] == entries[i].canonical;
  }

  /** Splits, plans and groups refer to what was stored for them. */
  lemma SplitsPlansRefer(c: Sidecar, l: Log, samples: seq<Sample>, groups: seq<Pair<nat>>, refs: PlanRefs,
                         plan: Option<Plan>, seed: nat, ids: Ids)
    requires PlanStored(l, refs, plan) && SplitsOk(c.splits, refs, seed, samples) && PlansOk(c.plans, refs, plan, seed)
    requires GroupEntriesOk(c.groups, groups, samples, refs.dedup) && ids.samples == SetOf(OwnIds(samples))
    requires Covers(ids.payloads, |l.pushed|) && Covers(ids.policies, |l.t.policies|) && Covers(ids.splits, 3)
    ensures forall i :: 0 <= i < |c.splits| ==> SplitValid(c.splits[i], ids)
    ensures forall i :: 0 <= i < |c.plans| ==> PlanValid(c.plans[i], ids)
    ensures forall i :: 0 <= i < |c.groups| ==> GroupValid(c.groups[i], ids)
  {
    PlanRefsIssued(l, refs, plan);
    hide PlanStored, SplitCount;
    forall i | 0 <= i < |c.plans| ensures PlanValid(c.plans[i], ids) {
      assert IsSplit(c.plans[i].split) && PlanIs(c.plans[i], refs, seed);
    }
    forall i | 0 <= i < |c.groups| ensures GroupValid(c.groups[i], ids) {
      CanonicalIsSample(c.groups, groups, samples, refs.dedup, i);
    }
  }

  lemma ProfileRefers(p: TrainingProfile, l: Log, samples: seq<Sample>, ids: Ids)
    requires TrainingProfileOk(p, l, samples) && Covers(ids.policies, |l.t.policies|)
    requires ids.records == SetOf(RecordIds(l.t))
    ensures TrainingProfileValid(p, ids)
  {
    RecordsCover(l, p.provenanceRef);
  }

  // ---- labels, pairs, actors, reviews, records ----

  ghost predicate CoversAll(ids: Ids, l: Log, samples: seq<Sample>) {
    && Covers(ids.payloads, |l.pushed|) && Covers(ids.strings, |l.t.strings|) && Covers(ids.policies, |l.t.policies|)
    && Covers(ids.actors, |l.t.actors|) && Covers(ids.profiles, |l.t.profiles|) && Covers(ids.reviews, |l.t.reviews|)
    && Covers(ids.labels, |l.t.labels|) && Covers(ids.digests, |l.t.digests|)
    && ids.records == SetOf(RecordIds(l.t)) && ids.samples == SetOf(OwnIds(samples))
  }

  lemma LabelValidIff(l: Log, sha: seq<byte> -> seq<byte>, samples: seq<Sample>, ids: Ids, i: nat)
    requires LogOk(l, sha) && CoversAll(ids, l, samples)
    ensures i < |l.t.labels| ==>
              (LabelValid(l.t.labels[i], ids)
               <==> LabelKindOk(KindsIn(l.t.labels)[i].0) && LabelKindOk(KindsIn(l.t.labels)[i].1))
    ensures i < |l.t.pairs| ==> PairValid(l.t.pairs[i], ids)
  {
    if i < |l.t.labels| {
      assert LabelOk(l, i);
      RecordsCover(l, l.t.labels[i].provenanceRef);
    }
    if i < |l.t.pairs| {
      assert PairOk(l, i);
      RecordsCover(l, l.t.pairs[i].provenanceRef);
    }
    hide LogOk, ProvenanceIssued, Refers, LabelKindOk;
  }

  lemma ReviewValidIff(l: Log, sha: seq<byte> -> seq<byte>, samples: seq<Sample>, ids: Ids, i: nat)
    requires LogOk(l, sha) && CoversAll(ids, l, samples)
    ensures i < |l.t.reviews| ==> (ReviewValid(l.t.reviews[i], ids) <==> ReviewKindOk(ReviewKindsIn(l.t.reviews)[i]))
    ensures i < |l.t.actors| ==> ActorValid(l.t.actors[i], ids)
  {
    if i < |l.t.reviews| { assert ReviewOk(l, i); }
    if i < |l.t.actors| { assert ActorOk(l, i); }
    hide LogOk, Refers, ReviewKindOk;
  }

  lemma RecordIsValid(l: Log, sha: seq<byte> -> seq<byte>, samples: seq<Sample>, ids: Ids, i: nat)
    requires LogOk(l, sha) && CoversAll(ids, l, samples) && Among(SamplesIn(l.t.provenance), OwnIds(samples))
    requires i < |l.t.provenance|
    ensures RecordValid(l.t.provenance[i], ids)
  {
    assert ProvenanceOk(l, i) && SamplesIn(l.t.provenance)[i] in OwnIds(samples);
    hide LogOk;
  }

  /** The records pass exactly when kinds and settings are known to the format. */
  lemma RecordsValidIff(c: Sidecar, l: Log, samples: seq<Sample>, sha: seq<byte> -> seq<byte>, topP: Json -> nat)
    requires LogOk(l, sha) && l.t == c.tables && CoversAll(AllIds(c), l, samples)
    requires Among(SamplesIn(l.t.provenance), OwnIds(samples))
    ensures RecordsValid(c, topP)
            <==> LabelKindsOk(KindsIn(l.t.labels)) && ReviewKindsOk(ReviewKindsIn(l.t.reviews))
                 && forall i :: 0 <= i < |l.t.profiles| ==> topP(SettingsIn(l.t.profiles)[i]) <= PPM
  {
    var ids := AllIds(c);
    hide LogOk, CoversAll, AllIds, LabelValid, PairValid, ActorValid, ReviewValid, RecordValid, KindsIn, ReviewKindsIn,
         LabelKindOk, ReviewKindOk, Among, OwnIds;
    forall i: nat
      ensures i < |l.t.labels| ==>
                (LabelValid(l.t.labels[i], ids)
                 <==> LabelKindOk(KindsIn(l.t.labels)[i].0) && LabelKindOk(KindsIn(l.t.labels)[i].1))
      ensures i < |l.t.pairs| ==> PairValid(l.t.pairs[i], ids)
      ensures i < |l.t.reviews| ==> (ReviewValid(l.t.reviews[i], ids) <==> ReviewKindOk(ReviewKindsIn(l.t.reviews)[i]))
      ensures i < |l.t.actors| ==> ActorValid(l.t.actors[i], ids)
      ensures i < |l.t.provenance| ==> RecordValid(l.t.provenance[i], ids)
    {
      LabelValidIff(l, sha, samples, ids, i);
      ReviewValidIff(l, sha, samples, ids, i);
      if i < |l.t.provenance| { RecordIsValid(l, sha, samples, ids, i); }
    }
    SettingsValidIff(c, topP);
    hide SettingsValid, SettingsIn;
  }

  lemma SettingsValidIff(c: Sidecar, topP: Json -> nat)
    ensures var t := c.tables;
            (forall i :: 0 <= i < |t.profiles| ==> SettingsValid(t.profiles[i], topP))
            <==> forall i :: 0 <= i < |t.profiles| ==> topP(SettingsIn(t.profiles)[i]) <= PPM
  {
    var t := c.tables;
    forall i | 0 <= i < |t.profiles|
      ensures SettingsValid(t.profiles[i], topP) <==> topP(SettingsIn(t.profiles)[i]) <= PPM
    {}
  }

  // ---- the whole sidecar ----

  lemma IdsCover(c: Sidecar, l: Log, samples: seq<Sample>, sha: seq<byte> -> seq<byte>)
    requires LogOk(l, sha) && l.t == c.tables && SampleIds(c.samples) == OwnIds(samples)
    ensures CoversAll(AllIds(c), l, samples)
  {
    PayloadsDense(l, sha);
    TextTablesDense(l, sha);
    ActorTablesDense(l, sha);
    hide LogOk, UniqueIds, Covers;
  }

  /** Ids repeat or are zero only where the samples' own do. */
  lemma UniqueIff(c: Sidecar, l: Log, samples: seq<Sample>, sha: seq<byte> -> seq<byte>)
    requires LogOk(l, sha) && l.t == c.tables && SampleIds(c.samples) == OwnIds(samples)
    requires ContentsOf(l) == AddAll(samples).c
    requires UniqueIds(SplitIds(c.splits)) && UniqueIds(GroupIds(c.groups)) && UniqueIds(PlanIds(c.plans))
    ensures AllUnique(c) <==> UniqueIds(OwnIds(samples))
  {
    PayloadsDense(l, sha);
    TextTablesDense(l, sha);
    ActorTablesDense(l, sha);
    BroughtIds(samples);
    var records, pairs := SamplesIn(l.t.provenance), PairsIn(l.t.pairs);
    assert records == AddAll(samples).c.provenance && pairs == AddAll(samples).c.pairs;
    hide LogOk, UniqueIds, Covers, AddAll, ContentsOf, SamplesIn;
    if UniqueIds(OwnIds(samples)) { RecordsUnique(l, sha); }
  }

  lemma SummariesHold(c: Sidecar, l: Log, samples: seq<Sample>, groups: seq<Pair<nat>>, refs: PlanRefs,
                      plan: Option<Plan>, seed: nat)
    requires SamplesStored(l, c.samples, samples, groups) && forall i :: 0 <= i < |samples| ==>
      IsSplit(samples[i].split)
    requires GroupEntriesOk(c.groups, groups, samples, refs.dedup)
    requires PlanStored(l, refs, plan) && SplitsOk(c.splits, refs, seed, samples) && PlansOk(c.plans, refs, plan, seed)
    requires TrainingProfileOk(c.profile, l, samples) && CoversAll(AllIds(c), l, samples) && Covers(AllIds(c).splits, 3)
    requires forall i :: 0 <= i < |samples| ==> Refers(GroupRef(groups, samples[i]), AllIds(c).groups)
    ensures SummariesValid(c)
  {
    var ids := AllIds(c);
    hide AllIds, PlanStored, SplitsOk, PlansOk, GroupEntriesOk, TrainingProfileOk, Covers, SampleStored, SampleValid,
         SplitValid, PlanValid, GroupValid, TrainingProfileValid, Refers, GroupRef, IsSplit, OwnIds, RecordIds;
    SplitsPlansRefer(c, l, samples, groups, refs, plan, seed, ids);
    ProfileRefers(c.profile, l, samples, ids);
    forall i | 0 <= i < |c.samples| ensures SampleValid(c.samples[i], ids) {
      assert EntryOk(l, c.samples[i], samples[i], groups);
      SampleRefers(l, c.samples[i], samples[i], ids);
    }
  }

  /** The tables an import builds pass validation exactly when its samples are admissible:
      no reference is ever at fault. */
  lemma ValidatesIff(c: Sidecar, pushed: seq<seq<byte>>, samples: seq<Sample>, plan: Option<Plan>, seed: nat,
                     sha: seq<byte> -> seq<byte>, topP: Json -> nat)
    requires SidecarOk(c, pushed, samples, plan, seed, sha)
    requires forall i :: 0 <= i < |samples| ==> IsSplit(samples[i].split)
    ensures Validates(c, topP) <==> Admissible(samples, topP)
  {
    var l := Log(pushed, c.tables);
    hide GroupsOk, SamplesStored, GroupEntriesOk, PlanStored, SplitsOk, PlansOk, LogOk, TrainingProfileOk,
         ActorsDistinct, Concat, AddAll, ContentsOf, IsSplit;
    var groups: seq<Pair<nat>> :| GroupsOk(groups, samples) && SamplesStored(l, c.samples, samples, groups)
      && GroupEntriesOk(c.groups, groups, samples, c.profile.dedupPolicyRef);
    var refs :| PlanStored(l, refs, plan) && SplitsOk(c.splits, refs, seed, samples)
      && PlansOk(c.plans, refs, plan, seed) && c.profile.dedupPolicyRef == refs.dedup
      && c.profile.splitPolicyRef == refs.filter;
    hide *;
    SummariesUnique(c, l, samples, groups, refs, plan, seed);
    IdsCover(c, l, samples, sha);
    IdSplits(c);
    UniqueIff(c, l, samples, sha);
    TextsValidIff(c, l, sha);
    SummariesHold(c, l, samples, groups, refs, plan, seed);
    BroughtIds(samples);
    BroughtKinds(samples);
    ContentsAre(l, AddAll(samples).c);
    RecordsValidIff(c, l, samples, sha, topP);
    ValidatesIs(c, samples, topP);
  }

  lemma IdSplits(c: Sidecar)
    ensures AllIds(c).splits == SetOf(SplitIds(c.splits)) && AllIds(c).groups == SetOf(GroupIds(c.groups))
  {
  }

  lemma ContentsAre(l: Log, c: Contents)
    requires ContentsOf(l) == c
    ensures c.texts == TextsIn(l.pushed, l.t.strings) && c.settings == SettingsIn(l.t.profiles)
    ensures c.labels == KindsIn(l.t.labels) && c.reviews == ReviewKindsIn(l.t.reviews)
    ensures c.provenance == SamplesIn(l.t.provenance) && |c.settings| == |l.t.profiles|
  {
  }

  lemma ValidatesIs(c: Sidecar, samples: seq<Sample>, topP: Json -> nat)
    ensures Validates(c, topP) <==> AllUnique(c) && TextsValid(c) && SummariesValid(c) && RecordsValid(c, topP)
    ensures Admissible(samples, topP)
            <==> UniqueIds(OwnIds(samples)) && (forall i :: 0 <= i < |samples| ==> KindsOk(samples[i]))
                 && (forall i :: 0 <= i < |AddAll(samples).c.texts| ==> |AddAll(samples).c.texts[i]| <= U32_MAX)
                 && forall i :: 0 <= i < |AddAll(samples).c.settings| ==> topP(AddAll(samples).c.settings[i]) <= PPM
  {
    hide AddAll, UniqueIds, KindsOk, AllUnique, TextsValid, SummariesValid, RecordsValid;
  }

  // ---- the whole build ----

  /** `build_training_sidecar`: the writer validates the tables before it returns them,
      so ids that repeat, over-long texts and unknown kinds stop the import here. */
  method BuildTrainingSidecar(samples: seq<Sample>, plan: Option<Plan>, seed: nat, sha: seq<byte> -> seq<byte>,
                              topP: Json -> nat)
    returns (r: Result<Sidecar>, ghost pushed: seq<seq<byte>>)
    requires (forall x: seq<byte> :: |sha(x)| == DIGEST_LEN) && (plan.Some? ==> ProperPlan(plan.value))
    requires forall i :: 0 <= i < |samples| ==> ProperSample(samples[i])
    ensures r.Ok? ==> SidecarOk(r.value, pushed, samples, plan, seed, sha) && Validates(r.value, topP)
    ensures r.Ok? ==> AllReadable(samples) && Admissible(samples, topP)
    ensures 40 + TotalCost(samples) <= U32_MAX ==> (r.Ok? <==> AllReadable(samples) && Admissible(samples, topP))
  {
    forall i | 0 <= i < |samples| ensures IsSplit(samples[i].split) { assert ProperSample(samples[i]); }
    hide *;
    r, pushed := BuildTables(samples, plan, seed, sha);
    if r.Err? { return; }
    ValidatesIff(r.value, pushed, samples, plan, seed, sha, topP);
    var valid := Validate(r.value, topP);
    if valid.Err? { return Err(valid.error), pushed; }
  }
}
