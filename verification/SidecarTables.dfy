/** The descriptor tables of an AI training sidecar: what every entry must refer to,
    and that growing tables never breaks an older entry. */
module SidecarTables {
  import opened Machine
  import opened CanonicalJson

  /** Shares are parts per million; policies have seven kinds; digests are SHA-256. */
  const PPM: nat := 1_000_000
  const POLICY_KINDS: nat := 7
  const DIGEST_LEN: nat := 32

  datatype PayloadRef = PayloadRef(ref: nat, offset: nat, length: nat)
  datatype DigestEntry = DigestEntry(ref: nat, payloadRef: nat)
  datatype PolicyEntry = PolicyEntry(ref: nat, kind: nat, payloadRef: nat, digestRef: nat)
  datatype StringEntry = StringEntry(ref: nat, length: nat, payloadRef: nat)
  datatype ActorEntry = ActorEntry(id: nat, namespaceRef: nat, nameRef: nat, versionRef: nat, providerRef: nat,
                                   endpointRef: nat, familyRef: nat, policyRef: nat)
  datatype ProfileEntry = ProfileEntry(id: nat, settings: Json)
  datatype ReviewEntry = ReviewEntry(id: nat, roleRef: nat, notesRef: nat, policyRef: nat, kind: byte, rating: nat)
  datatype ProvenanceEntry = ProvenanceEntry(id: nat, actorRef: nat, promptRef: nat, profileRef: nat, sampleRef: nat,
                                             reviewRef: nat, policyRef: nat, confidence: nat)
  datatype LabelEntry = LabelEntry(id: nat, payloadRef: nat, provenanceRef: nat, reviewRef: nat, evidenceRef: nat,
                                   policyRef: nat, kind: byte, authority: byte, confidence: nat)
  datatype PairEntry = PairEntry(id: nat, promptRef: nat, chosenRef: nat, rejectedRef: nat, provenanceRef: nat,
                                 reviewRef: nat, evidenceRef: nat, policyRef: nat)

  /** `AiDescriptorTablesV1`, the tables that grow while samples are imported. */
  datatype Tables = Tables(payloadRefs: seq<PayloadRef>, digests: seq<DigestEntry>, policies: seq<PolicyEntry>,
                           strings: seq<StringEntry>, actors: seq<ActorEntry>, profiles: seq<ProfileEntry>,
                           reviews: seq<ReviewEntry>, provenance: seq<ProvenanceEntry>, labels: seq<LabelEntry>,
                           pairs: seq<PairEntry>)

  function NoTables(): Tables {
    Tables([], [], [], [], [], [], [], [], [], [])
  }

  /** The byte strings pushed so far, in order, and the tables. */
  datatype Log = Log(pushed: seq<seq<byte>>, t: Tables)

  // ---- the payload ----

  function Concat(pushed: seq<seq<byte>>): seq<byte> {
    if pushed == [] then [] else Concat(pushed[..|pushed| - 1]) + pushed[|pushed| - 1]
  }

  /** One reference per push: dense from 1, each starting where the last one ends. */
  function RefsOf(pushed: seq<seq<byte>>): (r: seq<PayloadRef>)
    ensures |r| == |pushed|
  {
    if pushed == [] then []
    else
      var front := pushed[..|pushed| - 1];
      RefsOf(front) + [PayloadRef(|pushed|, |Concat(front)|, |pushed[|pushed| - 1]|)]
  }

  lemma PushSnoc(pushed: seq<seq<byte>>, bytes: seq<byte>)
    ensures Concat(pushed + [bytes]) == Concat(pushed) + bytes
    ensures RefsOf(pushed + [bytes]) == RefsOf(pushed) + [PayloadRef(|pushed| + 1, |Concat(pushed)|, |bytes|)]
  {
    assert (pushed + [bytes])[..|pushed|] == pushed;
  }

  /** The ranges tile the payload without gap or overlap, and every reference reads
      back exactly the bytes pushed for it. */
  lemma {:induction false} RefsTile(pushed: seq<seq<byte>>, i: nat)
    requires i < |pushed|
    ensures var refs, payload := RefsOf(pushed), Concat(pushed);
            && refs[i].ref == i + 1 && refs[i].length == |pushed[i]|
            && refs[i].offset + refs[i].length <= |payload|
            && payload[refs[i].offset..refs[i].offset + refs[i].length] == pushed[i]
            && (i == 0 ==> refs[i].offset == 0)
            && (i + 1 < |pushed| ==> refs[i + 1].offset == refs[i].offset + refs[i].length)
            && (i + 1 == |pushed| ==> refs[i].offset + refs[i].length == |payload|)
    decreases |pushed|
  {
    var front, last := pushed[..|pushed| - 1], pushed[|pushed| - 1];
    if i < |front| { RefsTile(front, i); }
    if front != [] { RefsTile(front, |front| - 1); }
    assert front == [] ==> Concat(front) == [];
    hide Concat, RefsOf;
    assert pushed == front + [last];
    PushSnoc(front, last);
  }

  // ---- entries ----

  /** A reference is zero or names an entry already issued; ids are dense from 1. */
  predicate Issued(ref: nat, count: nat) {
    ref <= count
  }

  predicate Named(ref: nat, count: nat) {
    0 < ref <= count
  }

  function Bytes(l: Log, ref: nat): seq<byte>
    requires Issued(ref, |l.pushed|)
  {
    if ref == 0 then [] else l.pushed[ref - 1]
  }

  ghost predicate ProvenanceIssued(l: Log, ref: nat) {
    ref == 0 || exists i :: 0 <= i < |l.t.provenance| && l.t.provenance[i].id == ref
  }

  ghost predicate DigestOk(l: Log, i: nat)
    requires i < |l.t.digests|
  {
    var e := l.t.digests[i];
    e.ref == i + 1 && Named(e.payloadRef, |l.pushed|) && |Bytes(l, e.payloadRef)| == DIGEST_LEN
  }

  /** A policy's digest is the digest of the policy's own bytes. */
  ghost predicate PolicyOk(l: Log, sha: seq<byte> -> seq<byte>, i: nat)
    requires i < |l.t.policies|
  {
    var e := l.t.policies[i];
    && e.ref == i + 1 && e.kind < POLICY_KINDS
    && Named(e.payloadRef, |l.pushed|) && Named(e.digestRef, |l.t.digests|)
    && Named(l.t.digests[e.digestRef - 1].payloadRef, |l.pushed|)
    && Bytes(l, l.t.digests[e.digestRef - 1].payloadRef) == sha(Bytes(l, e.payloadRef))
  }

  ghost predicate StringOk(l: Log, i: nat)
    requires i < |l.t.strings|
  {
    var e := l.t.strings[i];
    e.ref == i + 1 && Named(e.payloadRef, |l.pushed|) && e.length == |Bytes(l, e.payloadRef)| % 0x1_0000_0000
  }

  ghost predicate ActorOk(l: Log, i: nat)
    requires i < |l.t.actors|
  {
    var e, n := l.t.actors[i], |l.t.strings|;
    && e.id == i + 1 && Issued(e.namespaceRef, n) && Issued(e.nameRef, n) && Issued(e.versionRef, n)
    && Issued(e.providerRef, n) && Issued(e.endpointRef, n) && Issued(e.familyRef, n)
    && Issued(e.policyRef, |l.t.policies|)
  }

  ghost predicate ProfileOk(l: Log, i: nat)
    requires i < |l.t.profiles|
  {
    l.t.profiles[i].id == i + 1 && Proper(l.t.profiles[i].settings)
  }

  ghost predicate ReviewOk(l: Log, i: nat)
    requires i < |l.t.reviews|
  {
    var e := l.t.reviews[i];
    && e.id == i + 1 && Issued(e.roleRef, |l.t.strings|) && Issued(e.notesRef, |l.pushed|)
    && Issued(e.policyRef, |l.t.policies|) && e.rating <= PPM
  }

  ghost predicate ProvenanceOk(l: Log, i: nat)
    requires i < |l.t.provenance|
  {
    var e := l.t.provenance[i];
    && e.id == Max(e.sampleRef, 1) && e.confidence <= PPM && Named(e.actorRef, |l.t.actors|)
    && Issued(e.promptRef, |l.pushed|)
    && Issued(e.profileRef, |l.t.profiles|) && Issued(e.reviewRef, |l.t.reviews|) && Issued(e.policyRef, |l.t.policies|)
  }

  ghost predicate LabelOk(l: Log, i: nat)
    requires i < |l.t.labels|
  {
    var e := l.t.labels[i];
    && e.id == i + 1 && e.confidence <= PPM && Named(e.payloadRef, |l.pushed|) && ProvenanceIssued(l, e.provenanceRef)
    && Issued(e.reviewRef, |l.t.reviews|) && Issued(e.evidenceRef, |l.pushed|) && Issued(e.policyRef, |l.t.policies|)
  }

  ghost predicate PairOk(l: Log, i: nat)
    requires i < |l.t.pairs|
  {
    var e := l.t.pairs[i];
    && Named(e.promptRef, |l.pushed|) && Named(e.chosenRef, |l.pushed|) && Named(e.rejectedRef, |l.pushed|)
    && ProvenanceIssued(l, e.provenanceRef) && Issued(e.reviewRef, |l.t.reviews|)
    && Issued(e.evidenceRef, |l.pushed|) && Issued(e.policyRef, |l.t.policies|)
  }

  /** Referential integrity of every table. */
  ghost predicate LogOk(l: Log, sha: seq<byte> -> seq<byte>) {
    && l.t.payloadRefs == RefsOf(l.pushed)
    && (forall i :: 0 <= i < |l.pushed| ==> l.pushed[i] != [])
    && (forall i :: 0 <= i < |l.t.digests| ==> DigestOk(l, i))
    && (forall i :: 0 <= i < |l.t.policies| ==> PolicyOk(l, sha, i))
    && (forall i :: 0 <= i < |l.t.strings| ==> StringOk(l, i))
    && (forall i :: 0 <= i < |l.t.actors| ==> ActorOk(l, i))
    && (forall i :: 0 <= i < |l.t.profiles| ==> ProfileOk(l, i))
    && (forall i :: 0 <= i < |l.t.reviews| ==> ReviewOk(l, i))
    && (forall i :: 0 <= i < |l.t.provenance| ==> ProvenanceOk(l, i))
    && (forall i :: 0 <= i < |l.t.labels| ==> LabelOk(l, i))
    && (forall i :: 0 <= i < |l.t.pairs| ==> PairOk(l, i))
  }

  /** Nothing issued earlier is ever changed. */
  ghost predicate Grown(a: Log, b: Log) {
    && a.pushed <= b.pushed && a.t.payloadRefs <= b.t.payloadRefs && a.t.digests <= b.t.digests
    && a.t.policies <= b.t.policies && a.t.strings <= b.t.strings && a.t.actors <= b.t.actors
    && a.t.profiles <= b.t.profiles && a.t.reviews <= b.t.reviews && a.t.provenance <= b.t.provenance
    && a.t.labels <= b.t.labels && a.t.pairs <= b.t.pairs
  }

  lemma GrownTrans(a: Log, b: Log, c: Log)
    requires Grown(a, b) && Grown(b, c)
    ensures Grown(a, c)
  {
  }

  /** Older bytes and provenance records stay where they are. */
  lemma GrownKeeps(a: Log, b: Log, ref: nat)
    requires Grown(a, b)
    ensures Issued(ref, |a.pushed|) ==> Issued(ref, |b.pushed|) && Bytes(b, ref) == Bytes(a, ref)
    ensures ProvenanceIssued(a, ref) ==> ProvenanceIssued(b, ref)
  {
    if ref != 0 && ProvenanceIssued(a, ref) {
      var i :| 0 <= i < |a.t.provenance| && a.t.provenance[i].id == ref;
      assert b.t.provenance[i].id == ref;
    }
  }

  lemma SmallEntriesKeep(a: Log, b: Log, i: nat)
    requires Grown(a, b)
    ensures i < |a.t.digests| && DigestOk(a, i) ==> DigestOk(b, i)
    ensures i < |a.t.strings| && StringOk(a, i) ==> StringOk(b, i)
    ensures i < |a.t.actors| && ActorOk(a, i) ==> ActorOk(b, i)
    ensures i < |a.t.profiles| && ProfileOk(a, i) ==> ProfileOk(b, i)
    ensures i < |a.t.reviews| && ReviewOk(a, i) ==> ReviewOk(b, i)
    ensures i < |a.t.provenance| && ProvenanceOk(a, i) ==> ProvenanceOk(b, i)
  {
    if i < |a.t.strings| { GrownKeeps(a, b, a.t.strings[i].payloadRef); }
    if i < |a.t.digests| { GrownKeeps(a, b, a.t.digests[i].payloadRef); }
  }

  lemma PoliciesKeep(a: Log, b: Log, sha: seq<byte> -> seq<byte>, i: nat)
    requires Grown(a, b) && i < |a.t.policies| && PolicyOk(a, sha, i)
    ensures PolicyOk(b, sha, i)
  {
    var e := a.t.policies[i];
    GrownKeeps(a, b, e.payloadRef);
    GrownKeeps(a, b, a.t.digests[e.digestRef - 1].payloadRef);
  }

  lemma LabelsKeep(a: Log, b: Log, i: nat)
    requires Grown(a, b)
    ensures i < |a.t.labels| && LabelOk(a, i) ==> LabelOk(b, i)
    ensures i < |a.t.pairs| && PairOk(a, i) ==> PairOk(b, i)
  {
    if i < |a.t.labels| { GrownKeeps(a, b, a.t.labels[i].provenanceRef); }
    if i < |a.t.pairs| { GrownKeeps(a, b, a.t.pairs[i].provenanceRef); }
  }

  /** The entries added between two logs are in order. */
  ghost predicate NewEntriesOk(a: Log, b: Log, sha: seq<byte> -> seq<byte>) {
    && b.t.payloadRefs == RefsOf(b.pushed)
    && (forall i :: |a.pushed| <= i < |b.pushed| ==> b.pushed[i] != [])
    && (forall i :: |a.t.digests| <= i < |b.t.digests| ==> DigestOk(b, i))
    && (forall i :: |a.t.policies| <= i < |b.t.policies| ==> PolicyOk(b, sha, i))
    && (forall i :: |a.t.strings| <= i < |b.t.strings| ==> StringOk(b, i))
    && (forall i :: |a.t.actors| <= i < |b.t.actors| ==> ActorOk(b, i))
    && (forall i :: |a.t.profiles| <= i < |b.t.profiles| ==> ProfileOk(b, i))
    && (forall i :: |a.t.reviews| <= i < |b.t.reviews| ==> ReviewOk(b, i))
    && (forall i :: |a.t.provenance| <= i < |b.t.provenance| ==> ProvenanceOk(b, i))
    && (forall i :: |a.t.labels| <= i < |b.t.labels| ==> LabelOk(b, i))
    && (forall i :: |a.t.pairs| <= i < |b.t.pairs| ==> PairOk(b, i))
  }

  /** Integrity is preserved by any growth whose new entries are in order. */
  lemma GrowthKeepsIntegrity(a: Log, b: Log, sha: seq<byte> -> seq<byte>)
    requires LogOk(a, sha) && Grown(a, b) && NewEntriesOk(a, b, sha)
    ensures LogOk(b, sha)
  {
    forall i: nat
      ensures i < |a.t.digests| ==> DigestOk(b, i)
      ensures i < |a.t.strings| ==> StringOk(b, i)
      ensures i < |a.t.actors| ==> ActorOk(b, i)
      ensures i < |a.t.profiles| ==> ProfileOk(b, i)
      ensures i < |a.t.reviews| ==> ReviewOk(b, i)
      ensures i < |a.t.provenance| ==> ProvenanceOk(b, i)
      ensures i < |a.t.policies| ==> PolicyOk(b, sha, i)
      ensures i < |a.t.labels| ==> LabelOk(b, i)
      ensures i < |a.t.pairs| ==> PairOk(b, i)
    {
      hide DigestOk, StringOk, ActorOk, ProfileOk, ReviewOk, ProvenanceOk, PolicyOk, LabelOk, PairOk, Grown;
      SmallEntriesKeep(a, b, i);
      if i < |a.t.policies| { PoliciesKeep(a, b, sha, i); }
      LabelsKeep(a, b, i);
    }
    hide DigestOk, StringOk, ActorOk, ProfileOk, ReviewOk, ProvenanceOk, PolicyOk, LabelOk, PairOk;
  }

  // ---- what the tables hold besides references ----

  /** Texts, decoding settings, label kinds and authorities, review kinds, and the samples
      that provenance records and preference pairs speak of, in table order. */
  datatype Contents = Contents(texts: seq<seq<byte>>, settings: seq<Json>, labels: seq<(byte, byte)>,
                               reviews: seq<byte>, provenance: seq<nat>, pairs: seq<nat>)

  function TextsIn(pushed: seq<seq<byte>>, strings: seq<StringEntry>): (r: seq<seq<byte>>)
    ensures |r| == |strings|
  {
    seq(|strings|, i requires 0 <= i < |strings| =>
      if Named(strings[i].payloadRef, |pushed|) then pushed[strings[i].payloadRef - 1] else [])
  }

  function SettingsIn(profiles: seq<ProfileEntry>): (r: seq<Json>)
    ensures |r| == |profiles|
  {
    seq(|profiles|, i requires 0 <= i < |profiles| => profiles[i].settings)
  }

  function KindsIn(labels: seq<LabelEntry>): (r: seq<(byte, byte)>)
    ensures |r| == |labels|
  {
    seq(|labels|, i requires 0 <= i < |labels| => (labels[i].kind, labels[i].authority))
  }

  function ReviewKindsIn(reviews: seq<ReviewEntry>): (r: seq<byte>)
    ensures |r| == |reviews|
  {
    seq(|reviews|, i requires 0 <= i < |reviews| => reviews[i].kind)
  }

  function SamplesIn(provenance: seq<ProvenanceEntry>): (r: seq<nat>)
    ensures |r| == |provenance|
  {
    seq(|provenance|, i requires 0 <= i < |provenance| => provenance[i].sampleRef)
  }

  function PairsIn(pairs: seq<PairEntry>): (r: seq<nat>)
    ensures |r| == |pairs|
  {
    seq(|pairs|, i requires 0 <= i < |pairs| => pairs[i].id)
  }

  function ContentsOf(l: Log): Contents {
    Contents(TextsIn(l.pushed, l.t.strings), SettingsIn(l.t.profiles), KindsIn(l.t.labels), ReviewKindsIn(l.t.reviews),
             SamplesIn(l.t.provenance), PairsIn(l.t.pairs))
  }

  /** Pushing bytes moves no text. */
  lemma TextsStay(l: Log, sha: seq<byte> -> seq<byte>, bytes: seq<byte>)
    requires LogOk(l, sha)
    ensures TextsIn(l.pushed + [bytes], l.t.strings) == TextsIn(l.pushed, l.t.strings)
  {
    forall i | 0 <= i < |l.t.strings|
      ensures TextsIn(l.pushed + [bytes], l.t.strings)[i] == TextsIn(l.pushed, l.t.strings)[i]
    {
      assert StringOk(l, i);
    }
  }

  lemma TextsSnoc(pushed: seq<seq<byte>>, strings: seq<StringEntry>, e: StringEntry)
    requires Named(e.payloadRef, |pushed|)
    ensures TextsIn(pushed, strings + [e]) == TextsIn(pushed, strings) + [pushed[e.payloadRef - 1]]
  {
  }

  lemma SettingsSnoc(profiles: seq<ProfileEntry>, e: ProfileEntry)
    ensures SettingsIn(profiles + [e]) == SettingsIn(profiles) + [e.settings]
  {
  }

  lemma KindsSnoc(labels: seq<LabelEntry>, e: LabelEntry)
    ensures KindsIn(labels + [e]) == KindsIn(labels) + [(e.kind, e.authority)]
  {
  }

  lemma ReviewKindsSnoc(reviews: seq<ReviewEntry>, e: ReviewEntry)
    ensures ReviewKindsIn(reviews + [e]) == ReviewKindsIn(reviews) + [e.kind]
  {
  }

  lemma SamplesSnoc(provenance: seq<ProvenanceEntry>, e: ProvenanceEntry)
    ensures SamplesIn(provenance + [e]) == SamplesIn(provenance) + [e.sampleRef]
  {
  }

  lemma PairsSnoc(pairs: seq<PairEntry>, e: PairEntry)
    ensures PairsIn(pairs + [e]) == PairsIn(pairs) + [e.id]
  {
  }
}
