/** The training sidecar builder: an append-only payload log with reference tables. */
module SidecarBuilder {
  import opened Machine
  import opened CanonicalJson
  import opened SidecarTables

  const LICENSE: nat := 3
  const DISCLOSURE: nat := 5

  datatype Generator = Generator(namespace: seq<byte>, name: seq<byte>, version: seq<byte>, provider: seq<byte>,
                                 endpoint: seq<byte>, family: seq<byte>, decoding: Json, prompt: Option<Json>,
                                 confidence: Result<nat>)

  datatype Review = Review(notes: Option<Json>, role: seq<byte>, kind: byte, rating: Result<nat>)

  datatype Label = Label(text: Json, kind: byte, authority: byte, confidence: Result<nat>)

  datatype PreferencePair = PreferencePair(prompt: Json, chosen: Json, rejected: Json)

  /** `ImportedSample`; `pair` is the parsed preference pair of a preference sample, and
      shares are parsed as well, an unreadable one being an error. */
  datatype Sample = Sample(id: nat, input: seq<byte>, target: seq<byte>, metadata: seq<byte>, source: Option<Json>,
                           evidence: Option<Json>, policy: Option<Json>, license: Option<Json>, review: Option<Review>,
                           generator: Option<Generator>, labels: seq<Label>, pair: Option<Result<PreferencePair>>,
                           split: nat, dedupKey: Option<seq<byte>>)

  /** `TrainingSampleEntryV1`, its variable fields. */
  datatype SampleEntry = SampleEntry(id: nat, split: nat, sourceRef: nat, evidenceRef: nat, inputRef: nat,
                                     targetRef: nat, labelRef: nat, metadataRef: nat, dedupGroupRef: nat,
                                     licenseRef: nat, policyRef: nat, provenanceRef: nat)

  ghost predicate ProperOpt(v: Option<Json>) {
    v.Some? ==> Proper(v.value)
  }

  /** What `mapped_u32_ppm` lets through. */
  predicate ShareOk(r: Result<nat>) {
    r.Ok? ==> r.value <= PPM
  }

  ghost predicate ProperGenerator(g: Generator) {
    Proper(g.decoding) && ProperOpt(g.prompt) && ShareOk(g.confidence)
  }

  ghost predicate ProperReview(rv: Review) {
    ProperOpt(rv.notes) && ShareOk(rv.rating)
  }

  ghost predicate ProperLabel(x: Label) {
    Proper(x.text) && ShareOk(x.confidence)
  }

  /** `SplitName::id`: train 1, validation 2, test 3. */
  predicate IsSplit(split: nat) {
    1 <= split <= 3
  }

  ghost predicate ProperSample(s: Sample) {
    && ProperOpt(s.source) && ProperOpt(s.evidence) && ProperOpt(s.policy) && ProperOpt(s.license) && IsSplit(s.split)
    && (s.review.Some? ==> ProperReview(s.review.value))
    && (s.generator.Some? ==> ProperGenerator(s.generator.value))
    && (forall i :: 0 <= i < |s.labels| ==> ProperLabel(s.labels[i]))
    && (s.pair.Some? && s.pair.value.Ok? ==>
          Proper(s.pair.value.value.prompt) && Proper(s.pair.value.value.chosen) && Proper(s.pair.value.value.rejected))
  }

  /** `{namespace}\0{name}\0{version}\0{provider}\0{endpoint}` */
  function ActorKey(namespace: seq<byte>, name: seq<byte>, version: seq<byte>, provider: seq<byte>,
                    endpoint: seq<byte>): seq<byte> {
    namespace + [0] + name + [0] + version + [0] + provider + [0] + endpoint
  }

  function KeyOf(g: Generator): seq<byte> {
    ActorKey(g.namespace, g.name, g.version, g.provider, g.endpoint)
  }

  // ---- what a reference stands for ----

  ghost predicate Stored(l: Log, ref: nat, bytes: seq<byte>) {
    Issued(ref, |l.pushed|) && Bytes(l, ref) == bytes
  }

  ghost predicate StoredJson(l: Log, ref: nat, v: Option<Json>) {
    match v
    case None => ref == 0
    case Some(j) => Named(ref, |l.pushed|) && Bytes(l, ref) == Print(j)
  }

  ghost predicate StoredPolicy(l: Log, ref: nat, kind: nat, v: Option<Json>) {
    match v
    case None => ref == 0
    case Some(j) =>
      && Named(ref, |l.t.policies|) && l.t.policies[ref - 1].kind == kind
      && StoredJson(l, l.t.policies[ref - 1].payloadRef, Some(j))
  }

  ghost predicate StoredText(l: Log, ref: nat, text: seq<byte>) {
    && Issued(ref, |l.t.strings|) && (ref == 0 <==> text == [])
    && (ref > 0 ==> Stored(l, l.t.strings[ref - 1].payloadRef, text))
  }

  /** The actor entry spells this key. */
  ghost predicate StoredActor(l: Log, id: nat, key: seq<byte>) {
    && Named(id, |l.t.actors|)
    && exists a, b, c, d, e :: ActorKey(a, b, c, d, e) == key && ActorTexts(l, id, a, b, c, d, e)
  }

  ghost predicate ActorTexts(l: Log, id: nat, namespace: seq<byte>, name: seq<byte>, version: seq<byte>,
                             provider: seq<byte>, endpoint: seq<byte>)
    requires Named(id, |l.t.actors|)
  {
    var e := l.t.actors[id - 1];
    && StoredText(l, e.namespaceRef, namespace) && StoredText(l, e.nameRef, name)
    && StoredText(l, e.versionRef, version)
    && StoredText(l, e.providerRef, provider) && StoredText(l, e.endpointRef, endpoint)
  }

  ghost predicate StoredProfile(l: Log, id: nat, text: seq<byte>) {
    Named(id, |l.t.profiles|) && CanonicalText(l.t.profiles[id - 1].settings) == text
  }

  lemma StoredKeeps(a: Log, b: Log, ref: nat, bytes: seq<byte>, v: Option<Json>, kind: nat)
    requires Grown(a, b)
    ensures Stored(a, ref, bytes) ==> Stored(b, ref, bytes)
    ensures StoredJson(a, ref, v) ==> StoredJson(b, ref, v)
    ensures StoredPolicy(a, ref, kind, v) ==> StoredPolicy(b, ref, kind, v)
    ensures StoredText(a, ref, bytes) ==> StoredText(b, ref, bytes)
    ensures StoredProfile(a, ref, bytes) ==> StoredProfile(b, ref, bytes)
  {
    GrownKeeps(a, b, ref);
    if Named(ref, |a.t.policies|) { GrownKeeps(a, b, a.t.policies[ref - 1].payloadRef); }
    if Named(ref, |a.t.strings|) { GrownKeeps(a, b, a.t.strings[ref - 1].payloadRef); }
  }

  lemma ActorKeeps(a: Log, b: Log, id: nat, key: seq<byte>)
    requires Grown(a, b) && StoredActor(a, id, key)
    ensures StoredActor(b, id, key)
  {
    var n, m, v, p, e :| ActorKey(n, m, v, p, e) == key && ActorTexts(a, id, n, m, v, p, e);
    var entry := a.t.actors[id - 1];
    hide StoredText, ActorKey;
    StoredKeeps(a, b, entry.namespaceRef, n, None, 0);
    StoredKeeps(a, b, entry.nameRef, m, None, 0);
    StoredKeeps(a, b, entry.versionRef, v, None, 0);
    StoredKeeps(a, b, entry.providerRef, p, None, 0);
    StoredKeeps(a, b, entry.endpointRef, e, None, 0);
    assert ActorTexts(b, id, n, m, v, p, e);
  }

  // ---- single growth steps ----

  /** The next reference or id of every kind. */
  datatype Counters = Counters(payload: nat, text: nat, digest: nat, policy: nat, label_: nat, actor: nat,
                               profile: nat, review: nat)

  /** The counters follow the tables. */
  ghost predicate CountersOk(l: Log, k: Counters) {
    && k.payload == |l.pushed| + 1 <= U32_MAX && k.text == |l.t.strings| + 1 <= U32_MAX
    && k.digest == |l.t.digests| + 1 <= U32_MAX && k.policy == |l.t.policies| + 1 <= U32_MAX
    && k.label_ == |l.t.labels| + 1 <= U64_MAX && k.actor == |l.t.actors| + 1 <= U32_MAX
    && k.profile == |l.t.profiles| + 1 <= U32_MAX && k.review == |l.t.reviews| + 1 <= U32_MAX
  }

  ghost predicate MemosOk(l: Log, actors: map<seq<byte>, nat>, profiles: map<seq<byte>, nat>) {
    && (forall k :: k in actors ==> StoredActor(l, actors[k], k))
    && (forall k :: k in profiles ==> StoredProfile(l, profiles[k], k))
  }

  /** No two profiles share a canonical text: each text leads back to its one entry. */
  ghost predicate ProfilesOnce(entries: seq<ProfileEntry>, profiles: map<seq<byte>, nat>) {
    forall i :: 0 <= i < |entries| ==>
      CanonicalText(entries[i].settings) in profiles && profiles[CanonicalText(entries[i].settings)] == i + 1
  }

  ghost predicate LeadsTo(memo: map<seq<byte>, nat>, id: nat) {
    exists k :: k in memo && memo[k] == id
  }

  /** Every actor entry is the one its memo key leads back to. */
  ghost predicate ActorsOnce(n: nat, actors: map<seq<byte>, nat>) {
    forall id: nat :: Named(id, n) ==> LeadsTo(actors, id)
  }

  /** So no two actor entries spell the same key. */
  lemma OneActorPerKey(l: Log, actors: map<seq<byte>, nat>, profiles: map<seq<byte>, nat>, i: nat, j: nat,
                       key: seq<byte>)
    requires MemosOk(l, actors, profiles) && ActorsOnce(|l.t.actors|, actors)
    requires StoredActor(l, i, key) && StoredActor(l, j, key)
    ensures i == j
  {
    hide StoredActor, StoredProfile;
    ActorNamed(l, i, key);
    ActorNamed(l, j, key);
    assert LeadsTo(actors, i) && LeadsTo(actors, j);
    var a :| a in actors && actors[a] == i;
    var b :| b in actors && actors[b] == j;
    OneKeyPerActor(l, i, key, a);
    OneKeyPerActor(l, j, key, b);
  }

  lemma ActorNamed(l: Log, id: nat, key: seq<byte>)
    requires StoredActor(l, id, key)
    ensures Named(id, |l.t.actors|)
  {
  }

  lemma OneKeyPerActor(l: Log, id: nat, a: seq<byte>, b: seq<byte>)
    requires StoredActor(l, id, a) && StoredActor(l, id, b)
    ensures a == b
  {
    var n, m, v, p, e :| ActorKey(n, m, v, p, e) == a && ActorTexts(l, id, n, m, v, p, e);
    var n', m', v', p', e' :| ActorKey(n', m', v', p', e') == b && ActorTexts(l, id, n', m', v', p', e');
    hide ActorKey;
    var entry := l.t.actors[id - 1];
    OneText(l, entry.namespaceRef, n, n');
    OneText(l, entry.nameRef, m, m');
    OneText(l, entry.versionRef, v, v');
    OneText(l, entry.providerRef, p, p');
    OneText(l, entry.endpointRef, e, e');
  }

  lemma OneText(l: Log, ref: nat, a: seq<byte>, b: seq<byte>)
    requires StoredText(l, ref, a) && StoredText(l, ref, b)
    ensures a == b
  {
  }

  lemma MemosKeep(a: Log, b: Log, actors: map<seq<byte>, nat>, profiles: map<seq<byte>, nat>)
    requires Grown(a, b) && MemosOk(a, actors, profiles)
    ensures MemosOk(b, actors, profiles)
  {
    hide StoredActor, StoredProfile, Grown;
    forall k | k in actors ensures StoredActor(b, actors[k], k) { ActorKeeps(a, b, actors[k], k); }
    forall k | k in profiles ensures StoredProfile(b, profiles[k], k) { StoredKeeps(a, b, profiles[k], k, None, 0); }
  }

  lemma PushGrows(l: Log, bytes: seq<byte>, sha: seq<byte> -> seq<byte>)
    requires LogOk(l, sha) && bytes != []
    ensures var ref := PayloadRef(|l.pushed| + 1, |Concat(l.pushed)|, |bytes|);
            var b := Log(l.pushed + [bytes], l.t.(payloadRefs := l.t.payloadRefs + [ref]));
            && LogOk(b, sha) && Grown(l, b) && Stored(b, |l.pushed| + 1, bytes)
            && Concat(b.pushed) == Concat(l.pushed) + bytes
  {
    PushSnoc(l.pushed, bytes);
    var ref := PayloadRef(|l.pushed| + 1, |Concat(l.pushed)|, |bytes|);
    var b := Log(l.pushed + [bytes], l.t.(payloadRefs := l.t.payloadRefs + [ref]));
    hide DigestOk, StringOk, ActorOk, ProfileOk, ReviewOk, ProvenanceOk, PolicyOk, LabelOk, PairOk, RefsOf, Concat;
    assert NewEntriesOk(l, b, sha);
    GrowthKeepsIntegrity(l, b, sha);
  }

  lemma EntryGrows(l: Log, b: Log, sha: seq<byte> -> seq<byte>)
    requires LogOk(l, sha) && b.pushed == l.pushed && b.t.payloadRefs == l.t.payloadRefs
    requires Grown(l, b) && NewEntriesOk(l, b, sha)
    ensures LogOk(b, sha)
  {
    GrowthKeepsIntegrity(l, b, sha);
  }

  // ---- one new entry at a time ----

  lemma DigestGrows(l: Log, sha: seq<byte> -> seq<byte>, payloadRef: nat)
    requires LogOk(l, sha) && Named(payloadRef, |l.pushed|) && |Bytes(l, payloadRef)| == DIGEST_LEN
    ensures var b := l.(t := l.t.(digests := l.t.digests + [DigestEntry(|l.t.digests| + 1, payloadRef)]));
            LogOk(b, sha) && Grown(l, b)
  {
    var b := l.(t := l.t.(digests := l.t.digests + [DigestEntry(|l.t.digests| + 1, payloadRef)]));
    hide StringOk, ActorOk, ProfileOk, ReviewOk, ProvenanceOk, PolicyOk, LabelOk, PairOk, RefsOf;
    assert NewEntriesOk(l, b, sha);
    EntryGrows(l, b, sha);
  }

  lemma PolicyGrows(l: Log, sha: seq<byte> -> seq<byte>, kind: nat, payloadRef: nat, digestRef: nat)
    requires LogOk(l, sha) && kind < POLICY_KINDS && Named(payloadRef, |l.pushed|) && Named(digestRef, |l.t.digests|)
    requires Named(l.t.digests[digestRef - 1].payloadRef, |l.pushed|)
    requires Stored(l, l.t.digests[digestRef - 1].payloadRef, sha(Bytes(l, payloadRef)))
    ensures var e := PolicyEntry(|l.t.policies| + 1, kind, payloadRef, digestRef);
            var b := l.(t := l.t.(policies := l.t.policies + [e]));
            LogOk(b, sha) && Grown(l, b)
  {
    var e := PolicyEntry(|l.t.policies| + 1, kind, payloadRef, digestRef);
    var b := l.(t := l.t.(policies := l.t.policies + [e]));
    hide StringOk, ActorOk, ProfileOk, ReviewOk, ProvenanceOk, DigestOk, LabelOk, PairOk, RefsOf;
    assert PolicyOk(b, sha, |l.t.policies|);
    assert NewEntriesOk(l, b, sha);
    EntryGrows(l, b, sha);
  }

  lemma StringGrows(l: Log, sha: seq<byte> -> seq<byte>, payloadRef: nat, text: seq<byte>)
    requires LogOk(l, sha) && text != [] && Stored(l, payloadRef, text)
    ensures var e := StringEntry(|l.t.strings| + 1, |text| % 0x1_0000_0000, payloadRef);
            var b := l.(t := l.t.(strings := l.t.strings + [e]));
            LogOk(b, sha) && Grown(l, b) && StoredText(b, |l.t.strings| + 1, text)
  {
    var e := StringEntry(|l.t.strings| + 1, |text| % 0x1_0000_0000, payloadRef);
    var b := l.(t := l.t.(strings := l.t.strings + [e]));
    hide PolicyOk, ActorOk, ProfileOk, ReviewOk, ProvenanceOk, DigestOk, LabelOk, PairOk, RefsOf;
    assert StringOk(b, |l.t.strings|);
    assert NewEntriesOk(l, b, sha);
    EntryGrows(l, b, sha);
  }

  ghost predicate TextsStored(l: Log, refs: seq<nat>, texts: seq<seq<byte>>) {
    |refs| == |texts| && forall i :: 0 <= i < |refs| ==> StoredText(l, refs[i], texts[i])
  }

  lemma TextsAdd(a: Log, b: Log, refs: seq<nat>, texts: seq<seq<byte>>, ref: nat, text: seq<byte>)
    requires TextsStored(a, refs, texts) && Grown(a, b) && StoredText(b, ref, text)
    ensures TextsStored(b, refs + [ref], texts + [text])
  {
    hide StoredText, Grown;
    forall i | 0 <= i < |refs|
      ensures StoredText(b, refs[i], texts[i])
    {
      StoredKeeps(a, b, refs[i], texts[i], None, 0);
    }
  }

  function ActorWith(id: nat, refs: seq<nat>, policyRef: nat): ActorEntry
    requires |refs| == 6
  {
    ActorEntry(id, refs[0], refs[1], refs[2], refs[3], refs[4], refs[5], policyRef)
  }

  function Texts(g: Generator): (r: seq<seq<byte>>)
    ensures |r| == 6
  {
    [g.namespace, g.name, g.version, g.provider, g.endpoint, g.family]
  }

  lemma ActorGrows(l: Log, sha: seq<byte> -> seq<byte>, g: Generator, refs: seq<nat>, policyRef: nat)
    requires LogOk(l, sha) && TextsStored(l, refs, Texts(g)) && Issued(policyRef, |l.t.policies|)
    ensures |refs| == 6
    ensures var b := l.(t := l.t.(actors := l.t.actors + [ActorWith(|l.t.actors| + 1, refs, policyRef)]));
            LogOk(b, sha) && Grown(l, b) && StoredActor(b, |l.t.actors| + 1, KeyOf(g))
  {
    var b := l.(t := l.t.(actors := l.t.actors + [ActorWith(|l.t.actors| + 1, refs, policyRef)]));
    forall i | 0 <= i < 6 ensures StoredText(b, refs[i], Texts(g)[i]) { assert StoredText(l, refs[i], Texts(g)[i]); }
    assert StoredText(b, refs[0], g.namespace) && StoredText(b, refs[1], g.name) && StoredText(b, refs[2], g.version)
           && StoredText(b, refs[3], g.provider) && StoredText(b, refs[4], g.endpoint)
           && StoredText(b, refs[5], g.family);
    assert ActorOk(b, |l.t.actors|);
    hide PolicyOk, StringOk, ProfileOk, ReviewOk, ProvenanceOk, DigestOk, LabelOk, PairOk, RefsOf, StoredText, ActorOk;
    assert ActorTexts(b, |l.t.actors| + 1, g.namespace, g.name, g.version, g.provider, g.endpoint);
    assert NewEntriesOk(l, b, sha);
    EntryGrows(l, b, sha);
  }

  lemma ProfileGrows(l: Log, sha: seq<byte> -> seq<byte>, v: Json)
    requires LogOk(l, sha) && Proper(v)
    ensures var b := l.(t := l.t.(profiles := l.t.profiles + [ProfileEntry(|l.t.profiles| + 1, v)]));
            LogOk(b, sha) && Grown(l, b) && StoredProfile(b, |l.t.profiles| + 1, CanonicalText(v))
  {
    var b := l.(t := l.t.(profiles := l.t.profiles + [ProfileEntry(|l.t.profiles| + 1, v)]));
    hide PolicyOk, StringOk, ActorOk, ReviewOk, ProvenanceOk, DigestOk, LabelOk, PairOk, RefsOf, Proper, CanonicalText;
    assert NewEntriesOk(l, b, sha);
    EntryGrows(l, b, sha);
  }

  lemma ReviewGrows(l: Log, sha: seq<byte> -> seq<byte>, e: ReviewEntry)
    requires LogOk(l, sha) && e.id == |l.t.reviews| + 1 && Issued(e.roleRef, |l.t.strings|)
    requires Issued(e.notesRef, |l.pushed|)
    requires Issued(e.policyRef, |l.t.policies|) && e.rating <= PPM
    ensures var b := l.(t := l.t.(reviews := l.t.reviews + [e])); LogOk(b, sha) && Grown(l, b)
  {
    var b := l.(t := l.t.(reviews := l.t.reviews + [e]));
    hide PolicyOk, StringOk, ActorOk, ProfileOk, ProvenanceOk, DigestOk, LabelOk, PairOk, RefsOf;
    assert ReviewOk(b, |l.t.reviews|);
    assert NewEntriesOk(l, b, sha);
    EntryGrows(l, b, sha);
  }

  lemma ProvenanceGrows(l: Log, sha: seq<byte> -> seq<byte>, e: ProvenanceEntry)
    requires LogOk(l, sha) && e.id == Max(e.sampleRef, 1) && e.confidence <= PPM && Named(e.actorRef, |l.t.actors|)
    requires Issued(e.promptRef, |l.pushed|)
    requires Issued(e.profileRef, |l.t.profiles|) && Issued(e.reviewRef, |l.t.reviews|)
    requires Issued(e.policyRef, |l.t.policies|)
    ensures var b := l.(t := l.t.(provenance := l.t.provenance + [e]));
            LogOk(b, sha) && Grown(l, b) && ProvenanceIssued(b, e.id)
  {
    var b := l.(t := l.t.(provenance := l.t.provenance + [e]));
    hide PolicyOk, StringOk, ActorOk, ProfileOk, ReviewOk, DigestOk, LabelOk, PairOk, RefsOf;
    assert b.t.provenance[|l.t.provenance|] == e;
    assert ProvenanceOk(b, |l.t.provenance|);
    assert NewEntriesOk(l, b, sha);
    EntryGrows(l, b, sha);
  }

  lemma LabelGrows(l: Log, sha: seq<byte> -> seq<byte>, e: LabelEntry)
    requires LogOk(l, sha) && e.id == |l.t.labels| + 1 && e.confidence <= PPM && Named(e.payloadRef, |l.pushed|)
    requires ProvenanceIssued(l, e.provenanceRef)
    requires Issued(e.reviewRef, |l.t.reviews|) && Issued(e.evidenceRef, |l.pushed|)
    requires Issued(e.policyRef, |l.t.policies|)
    ensures var b := l.(t := l.t.(labels := l.t.labels + [e])); LogOk(b, sha) && Grown(l, b)
  {
    var b := l.(t := l.t.(labels := l.t.labels + [e]));
    hide PolicyOk, StringOk, ActorOk, ProfileOk, ReviewOk, DigestOk, ProvenanceOk, PairOk, RefsOf;
    GrownKeeps(l, b, e.provenanceRef);
    assert LabelOk(b, |l.t.labels|);
    assert NewEntriesOk(l, b, sha);
    EntryGrows(l, b, sha);
  }

  lemma PairGrows(l: Log, sha: seq<byte> -> seq<byte>, e: PairEntry)
    requires LogOk(l, sha) && Named(e.promptRef, |l.pushed|) && Named(e.chosenRef, |l.pushed|)
    requires Named(e.rejectedRef, |l.pushed|)
    requires ProvenanceIssued(l, e.provenanceRef) && Issued(e.reviewRef, |l.t.reviews|)
    requires Issued(e.evidenceRef, |l.pushed|) && Issued(e.policyRef, |l.t.policies|)
    ensures var b := l.(t := l.t.(pairs := l.t.pairs + [e])); LogOk(b, sha) && Grown(l, b)
  {
    var b := l.(t := l.t.(pairs := l.t.pairs + [e]));
    hide PolicyOk, StringOk, ActorOk, ProfileOk, ReviewOk, DigestOk, ProvenanceOk, LabelOk, RefsOf;
    GrownKeeps(l, b, e.provenanceRef);
    assert PairOk(b, |l.t.pairs|);
    assert NewEntriesOk(l, b, sha);
    EntryGrows(l, b, sha);
  }

  // ---- what samples bring ----

  /** What the tables hold, the actor keys and the canonical settings already stored. */
  datatype Brought = Brought(c: Contents, keys: set<seq<byte>>, settled: set<seq<byte>>)

  function Nothing(): Brought {
    Brought(Contents([], [], [], [], [], []), {}, {})
  }

  function AddText(b: Brought, text: seq<byte>): Brought {
    if text == [] then b else b.(c := b.c.(texts := b.c.texts + [text]))
  }

  function AddTexts(b: Brought, texts: seq<seq<byte>>): Brought {
    if texts == [] then b else AddText(AddTexts(b, texts[..|texts| - 1]), texts[|texts| - 1])
  }

  function AddKey(b: Brought, key: seq<byte>): Brought {
    b.(keys := b.keys + {key})
  }

  function AddSettings(b: Brought, v: Json): Brought {
    b.(c := b.c.(settings := b.c.settings + [v]), settled := b.settled + {CanonicalText(v)})
  }

  function AddReviewKind(b: Brought, kind: byte): Brought {
    b.(c := b.c.(reviews := b.c.reviews + [kind]))
  }

  function AddLabel(b: Brought, kinds: (byte, byte)): Brought {
    b.(c := b.c.(labels := b.c.labels + [kinds]))
  }

  function AddRecord(b: Brought, id: nat): Brought {
    b.(c := b.c.(provenance := b.c.provenance + [id]))
  }

  function AddPairId(b: Brought, id: nat): Brought {
    b.(c := b.c.(pairs := b.c.pairs + [id]))
  }

  /** An actor key seen before brings nothing, not even its family. */
  function AddActor(b: Brought, g: Generator): Brought {
    if KeyOf(g) in b.keys then b else AddKey(AddTexts(b, Texts(g)), KeyOf(g))
  }

  function AddProfile(b: Brought, v: Json): Brought {
    if !v.JObject? || CanonicalText(v) in b.settled then b else AddSettings(b, v)
  }

  function AddGenerator(b: Brought, g: Generator, id: nat): Brought {
    AddRecord(AddProfile(AddActor(b, g), g.decoding), id)
  }

  function AddReview(b: Brought, rv: Review): Brought {
    AddReviewKind(AddText(b, rv.role), rv.kind)
  }

  function AddLabels(b: Brought, labels: seq<Label>): Brought {
    if labels == [] then b
    else AddLabel(AddLabels(b, labels[..|labels| - 1]), (labels[|labels| - 1].kind, labels[|labels| - 1].authority))
  }

  function AddOrigins(b: Brought, s: Sample): Brought {
    var reviewed := if s.review.Some? then AddReview(b, s.review.value) else b;
    if s.generator.Some? then AddGenerator(reviewed, s.generator.value, s.id) else reviewed
  }

  function AddSample(b: Brought, s: Sample): Brought {
    var labelled := AddLabels(AddOrigins(b, s), s.labels);
    if s.pair.Some? then AddPairId(labelled, s.id) else labelled
  }

  /** What all samples bring, first to last. */
  function AddAll(samples: seq<Sample>): Brought {
    if samples == [] then Nothing() else AddSample(AddAll(samples[..|samples| - 1]), samples[|samples| - 1])
  }

  lemma AddTextsStep(b: Brought, texts: seq<seq<byte>>, i: nat)
    requires i < |texts|
    ensures AddTexts(b, texts[..i + 1]) == AddText(AddTexts(b, texts[..i]), texts[i])
  {
    assert texts[..i + 1][..i] == texts[..i];
  }

  lemma AddLabelsStep(b: Brought, labels: seq<Label>, i: nat)
    requires i < |labels|
    ensures AddLabels(b, labels[..i + 1]) == AddLabel(AddLabels(b, labels[..i]), (labels[i].kind, labels[i].authority))
  {
    assert labels[..i + 1][..i] == labels[..i];
  }

  // ---- the builder's state ----

  /** Everything the builder holds, as one value. */
  datatype State = State(l: Log, payload: seq<byte>, k: Counters, actors: map<seq<byte>, nat>,
                         profiles: map<seq<byte>, nat>)

  /** What every step keeps: integrity, the payload spelled by the pushes, counters
      one past the tables, and memos that lead to their entries and back. */
  ghost predicate StateOk(s: State, sha: seq<byte> -> seq<byte>) {
    && LogOk(s.l, sha) && s.payload == Concat(s.l.pushed) && (forall x: seq<byte> :: |sha(x)| == DIGEST_LEN)
    && CountersOk(s.l, s.k) && MemosOk(s.l, s.actors, s.profiles) && ProfilesOnce(s.l.t.profiles, s.profiles)
    && ActorsOnce(|s.l.t.actors|, s.actors)
  }

  function HeldBy(s: State): Brought {
    Brought(ContentsOf(s.l), s.actors.Keys, s.profiles.Keys)
  }

  /** Growth that leaves the payload and the memo maps alone. */
  lemma StateGrows(s: State, l: Log, k: Counters, sha: seq<byte> -> seq<byte>)
    requires StateOk(s, sha) && LogOk(l, sha) && Grown(s.l, l) && CountersOk(l, k)
    requires l.pushed == s.l.pushed && l.t.profiles == s.l.t.profiles && |l.t.actors| == |s.l.t.actors|
    ensures StateOk(s.(l := l, k := k), sha)
  {
    hide LogOk, Grown, MemosOk, CountersOk, Concat, ProfilesOnce, ActorsOnce;
    MemosKeep(s.l, l, s.actors, s.profiles);
  }

  function Pushed(s: State, bytes: seq<byte>): State {
    var ref := PayloadRef(s.k.payload, |s.payload|, |bytes|);
    State(Log(s.l.pushed + [bytes], s.l.t.(payloadRefs := s.l.t.payloadRefs + [ref])), s.payload + bytes,
          s.k.(payload := s.k.payload + 1), s.actors, s.profiles)
  }

  lemma AfterPush(s: State, bytes: seq<byte>, sha: seq<byte> -> seq<byte>)
    requires StateOk(s, sha) && bytes != []
    ensures s.k.payload <= U32_MAX && HeldBy(Pushed(s, bytes)) == HeldBy(s)
    ensures s.k.payload < U32_MAX ==> StateOk(Pushed(s, bytes), sha)
    ensures Grown(s.l, Pushed(s, bytes).l) && Stored(Pushed(s, bytes).l, s.k.payload, bytes)
    ensures Named(s.k.payload, |Pushed(s, bytes).l.pushed|)
  {
    PushGrows(s.l, bytes, sha);
    TextsStay(s.l, sha, bytes);
    hide LogOk, Grown, MemosOk, Concat, ProfilesOnce, ActorsOnce;
    MemosKeep(s.l, Pushed(s, bytes).l, s.actors, s.profiles);
  }

  function WithDigest(s: State, payloadRef: nat): State {
    var t := s.l.t.(digests := s.l.t.digests + [DigestEntry(s.k.digest, payloadRef)]);
    s.(l := s.l.(t := t), k := s.k.(digest := s.k.digest + 1))
  }

  function WithPolicy(s: State, kind: nat, payloadRef: nat, digestRef: nat): State {
    var t := s.l.t.(policies := s.l.t.policies + [PolicyEntry(s.k.policy, kind, payloadRef, digestRef)]);
    s.(l := s.l.(t := t), k := s.k.(policy := s.k.policy + 1))
  }

  function WithString(s: State, length: nat, payloadRef: nat): State {
    var t := s.l.t.(strings := s.l.t.strings + [StringEntry(s.k.text, length % 0x1_0000_0000, payloadRef)]);
    s.(l := s.l.(t := t), k := s.k.(text := s.k.text + 1))
  }

  function WithReview(s: State, e: ReviewEntry): State {
    s.(l := s.l.(t := s.l.t.(reviews := s.l.t.reviews + [e])), k := s.k.(review := s.k.review + 1))
  }

  function WithLabel(s: State, e: LabelEntry): State {
    s.(l := s.l.(t := s.l.t.(labels := s.l.t.labels + [e])), k := s.k.(label_ := s.k.label_ + 1))
  }

  function WithProvenance(s: State, e: ProvenanceEntry): State {
    s.(l := s.l.(t := s.l.t.(provenance := s.l.t.provenance + [e])))
  }

  function WithPair(s: State, e: PairEntry): State {
    s.(l := s.l.(t := s.l.t.(pairs := s.l.t.pairs + [e])))
  }

  function WithActor(s: State, key: seq<byte>, refs: seq<nat>, policyRef: nat): State
    requires |refs| == 6
  {
    var t := s.l.t.(actors := s.l.t.actors + [ActorWith(s.k.actor, refs, policyRef)]);
    s.(l := s.l.(t := t), k := s.k.(actor := s.k.actor + 1), actors := s.actors[key := s.k.actor])
  }

  function WithProfile(s: State, v: Json): State {
    var t := s.l.t.(profiles := s.l.t.profiles + [ProfileEntry(s.k.profile, v)]);
    s.(l := s.l.(t := t), k := s.k.(profile := s.k.profile + 1),
       profiles := s.profiles[CanonicalText(v) := s.k.profile])
  }

  ghost predicate StoredDigest(l: Log, ref: nat, digest: seq<byte>) {
    && Named(ref, |l.t.digests|) && Named(l.t.digests[ref - 1].payloadRef, |l.pushed|)
    && Stored(l, l.t.digests[ref - 1].payloadRef, digest)
  }

  lemma AfterDigest(s: State, sha: seq<byte> -> seq<byte>, payloadRef: nat, digest: seq<byte>)
    requires StateOk(s, sha) && Named(payloadRef, |s.l.pushed|) && Stored(s.l, payloadRef, digest)
    requires |digest| == DIGEST_LEN
    ensures HeldBy(WithDigest(s, payloadRef)) == HeldBy(s)
    ensures Grown(s.l, WithDigest(s, payloadRef).l) && StoredDigest(WithDigest(s, payloadRef).l, s.k.digest, digest)
    ensures s.k.digest <= U32_MAX && (s.k.digest < U32_MAX ==> StateOk(WithDigest(s, payloadRef), sha))
  {
    hide StateOk, LogOk, Grown;
    StateParts(s, sha);
    DigestGrows(s.l, sha, payloadRef);
    if s.k.digest < U32_MAX {
      StateGrows(s, WithDigest(s, payloadRef).l, WithDigest(s, payloadRef).k, sha);
    }
  }

  lemma StateParts(s: State, sha: seq<byte> -> seq<byte>)
    requires StateOk(s, sha)
    ensures LogOk(s.l, sha) && CountersOk(s.l, s.k)
  {
  }

  lemma AfterPolicy(s: State, sha: seq<byte> -> seq<byte>, kind: nat, payloadRef: nat, digestRef: nat, v: Json)
    requires StateOk(s, sha) && StoredJson(s.l, payloadRef, Some(v)) && StoredDigest(s.l, digestRef, sha(Print(v)))
    requires kind < POLICY_KINDS
    ensures HeldBy(WithPolicy(s, kind, payloadRef, digestRef)) == HeldBy(s)
    ensures Grown(s.l, WithPolicy(s, kind, payloadRef, digestRef).l)
    ensures StoredPolicy(WithPolicy(s, kind, payloadRef, digestRef).l, s.k.policy, kind, Some(v))
    ensures s.k.policy <= U32_MAX && (s.k.policy < U32_MAX ==> StateOk(WithPolicy(s, kind, payloadRef, digestRef), sha))
  {
    PolicyGrows(s.l, sha, kind, payloadRef, digestRef);
    PolicyHeld(s, kind, payloadRef, digestRef);
    hide LogOk, Grown, HeldBy, MemosOk, ProfilesOnce, ActorsOnce, Concat, Print;
    if s.k.policy < U32_MAX {
      StateGrows(s, WithPolicy(s, kind, payloadRef, digestRef).l, WithPolicy(s, kind, payloadRef, digestRef).k, sha);
    }
  }

  lemma PolicyHeld(s: State, kind: nat, payloadRef: nat, digestRef: nat)
    ensures HeldBy(WithPolicy(s, kind, payloadRef, digestRef)) == HeldBy(s)
  {
  }

  lemma AfterString(s: State, sha: seq<byte> -> seq<byte>, payloadRef: nat, text: seq<byte>)
    requires StateOk(s, sha) && text != [] && Stored(s.l, payloadRef, text)
    ensures HeldBy(WithString(s, |text|, payloadRef)) == AddText(HeldBy(s), text)
    ensures Grown(s.l, WithString(s, |text|, payloadRef).l)
    ensures StoredText(WithString(s, |text|, payloadRef).l, s.k.text, text)
    ensures s.k.text <= U32_MAX && (s.k.text < U32_MAX ==> StateOk(WithString(s, |text|, payloadRef), sha))
  {
    StringGrows(s.l, sha, payloadRef, text);
    TextsSnoc(s.l.pushed, s.l.t.strings, StringEntry(s.k.text, |text| % 0x1_0000_0000, payloadRef));
    hide LogOk, Grown, StoredText;
    if s.k.text < U32_MAX {
      StateGrows(s, WithString(s, |text|, payloadRef).l, WithString(s, |text|, payloadRef).k, sha);
    }
  }

  lemma AfterReview(s: State, sha: seq<byte> -> seq<byte>, e: ReviewEntry)
    requires StateOk(s, sha) && e.id == s.k.review && Issued(e.roleRef, |s.l.t.strings|)
    requires Issued(e.notesRef, |s.l.pushed|)
    requires Issued(e.policyRef, |s.l.t.policies|) && e.rating <= PPM
    ensures HeldBy(WithReview(s, e)) == AddReviewKind(HeldBy(s), e.kind)
    ensures Grown(s.l, WithReview(s, e).l) && Named(s.k.review, |WithReview(s, e).l.t.reviews|)
    ensures WithReview(s, e).l.t.reviews[s.k.review - 1] == e
    ensures s.k.review <= U32_MAX && (s.k.review < U32_MAX ==> StateOk(WithReview(s, e), sha))
  {
    ReviewGrows(s.l, sha, e);
    hide LogOk, Grown;
    if s.k.review < U32_MAX { StateGrows(s, WithReview(s, e).l, WithReview(s, e).k, sha); }
    ReviewKindsSnoc(s.l.t.reviews, e);
  }

  lemma AfterLabel(s: State, sha: seq<byte> -> seq<byte>, e: LabelEntry)
    requires StateOk(s, sha) && e.id == s.k.label_ && e.confidence <= PPM && Named(e.payloadRef, |s.l.pushed|)
    requires ProvenanceIssued(s.l, e.provenanceRef)
    requires Issued(e.reviewRef, |s.l.t.reviews|) && Issued(e.evidenceRef, |s.l.pushed|)
    requires Issued(e.policyRef, |s.l.t.policies|)
    ensures HeldBy(WithLabel(s, e)) == AddLabel(HeldBy(s), (e.kind, e.authority)) && Grown(s.l, WithLabel(s, e).l)
    ensures s.k.label_ <= U64_MAX && (s.k.label_ < U64_MAX ==> StateOk(WithLabel(s, e), sha))
  {
    LabelGrows(s.l, sha, e);
    KindsSnoc(s.l.t.labels, e);
    hide LogOk, Grown;
    if s.k.label_ < U64_MAX { StateGrows(s, WithLabel(s, e).l, WithLabel(s, e).k, sha); }
  }

  lemma AfterProvenance(s: State, sha: seq<byte> -> seq<byte>, e: ProvenanceEntry)
    requires StateOk(s, sha) && e.id == Max(e.sampleRef, 1) && e.confidence <= PPM
    requires Named(e.actorRef, |s.l.t.actors|) && Issued(e.promptRef, |s.l.pushed|)
    requires Issued(e.profileRef, |s.l.t.profiles|) && Issued(e.reviewRef, |s.l.t.reviews|)
    requires Issued(e.policyRef, |s.l.t.policies|)
    ensures Grown(s.l, WithProvenance(s, e).l) && StateOk(WithProvenance(s, e), sha)
    ensures ProvenanceIssued(WithProvenance(s, e).l, e.id)
    ensures HeldBy(WithProvenance(s, e)) == AddRecord(HeldBy(s), e.sampleRef)
  {
    hide *;
    StateIs(s, sha);
    ProvenanceGrows(s.l, sha, e);
    RecordShape(s, e);
    var b := WithProvenance(s, e);
    MemosKeep(s.l, b.l, s.actors, s.profiles);
    StateIs(b, sha);
  }

  lemma RecordShape(s: State, e: ProvenanceEntry)
    ensures var b := WithProvenance(s, e);
            && b == s.(l := s.l.(t := s.l.t.(provenance := s.l.t.provenance + [e])))
            && HeldBy(b) == AddRecord(HeldBy(s), e.sampleRef)
            && (CountersOk(s.l, s.k) ==> CountersOk(b.l, b.k))
            && b.l.pushed == s.l.pushed && b.l.t.profiles == s.l.t.profiles && b.l.t.actors == s.l.t.actors
  {
    SamplesSnoc(s.l.t.provenance, e);
  }

  lemma AfterPair(s: State, sha: seq<byte> -> seq<byte>, e: PairEntry)
    requires StateOk(s, sha) && Named(e.promptRef, |s.l.pushed|) && Named(e.chosenRef, |s.l.pushed|)
    requires Named(e.rejectedRef, |s.l.pushed|) && ProvenanceIssued(s.l, e.provenanceRef)
    requires Issued(e.reviewRef, |s.l.t.reviews|)
    requires Issued(e.evidenceRef, |s.l.pushed|) && Issued(e.policyRef, |s.l.t.policies|)
    ensures Grown(s.l, WithPair(s, e).l) && StateOk(WithPair(s, e), sha)
    ensures HeldBy(WithPair(s, e)) == AddPairId(HeldBy(s), e.id)
  {
    PairGrows(s.l, sha, e);
    PairsSnoc(s.l.t.pairs, e);
    hide LogOk, Grown;
    StateGrows(s, WithPair(s, e).l, WithPair(s, e).k, sha);
  }

  lemma AfterActor(s: State, sha: seq<byte> -> seq<byte>, g: Generator, refs: seq<nat>, policyRef: nat)
    requires StateOk(s, sha) && TextsStored(s.l, refs, Texts(g)) && Issued(policyRef, |s.l.t.policies|)
    requires KeyOf(g) !in s.actors
    ensures |refs| == 6 && HeldBy(WithActor(s, KeyOf(g), refs, policyRef)) == AddKey(HeldBy(s), KeyOf(g))
    ensures Grown(s.l, WithActor(s, KeyOf(g), refs, policyRef).l)
    ensures StoredActor(WithActor(s, KeyOf(g), refs, policyRef).l, s.k.actor, KeyOf(g))
    ensures s.k.actor <= U32_MAX && (s.k.actor < U32_MAX ==> StateOk(WithActor(s, KeyOf(g), refs, policyRef), sha))
  {
    hide *;
    StateIs(s, sha);
    ActorGrows(s.l, sha, g, refs, policyRef);
    var b := WithActor(s, KeyOf(g), refs, policyRef);
    ActorShape(s, KeyOf(g), refs, policyRef, sha);
    MemosKeep(s.l, b.l, s.actors, s.profiles);
    MemosAdd(b.l, s.actors, s.profiles, KeyOf(g), s.k.actor);
    OneMoreActor(|s.l.t.actors|, s.actors, KeyOf(g));
    StateIs(b, sha);
  }

  lemma StateIs(s: State, sha: seq<byte> -> seq<byte>)
    ensures StateOk(s, sha)
            <==> LogOk(s.l, sha) && s.payload == Concat(s.l.pushed) && (forall x: seq<byte> :: |sha(x)| == DIGEST_LEN)
                 && CountersOk(s.l, s.k) && MemosOk(s.l, s.actors, s.profiles)
                 && ProfilesOnce(s.l.t.profiles, s.profiles)
                 && ActorsOnce(|s.l.t.actors|, s.actors)
  {
  }

  lemma ActorShape(s: State, key: seq<byte>, refs: seq<nat>, policyRef: nat, sha: seq<byte> -> seq<byte>)
    requires StateOk(s, sha) && |refs| == 6
    ensures s.k.actor == |s.l.t.actors| + 1 <= U32_MAX
    ensures var b := WithActor(s, key, refs, policyRef);
            && b == State(s.l.(t := s.l.t.(actors := s.l.t.actors + [ActorWith(|s.l.t.actors| + 1, refs, policyRef)])),
                          s.payload, b.k, s.actors[key := s.k.actor], s.profiles)
            && HeldBy(b) == AddKey(HeldBy(s), key) && |b.l.t.actors| == |s.l.t.actors| + 1
            && b.l.pushed == s.l.pushed && b.l.t.profiles == s.l.t.profiles
            && (s.k.actor < U32_MAX ==> CountersOk(b.l, b.k))
  {
    hide LogOk, MemosOk, ProfilesOnce, ActorsOnce, Concat;
  }

  lemma MemosAdd(l: Log, actors: map<seq<byte>, nat>, profiles: map<seq<byte>, nat>, key: seq<byte>, id: nat)
    requires MemosOk(l, actors, profiles) && StoredActor(l, id, key)
    ensures MemosOk(l, actors[key := id], profiles)
  {
    hide StoredActor, StoredProfile;
  }

  lemma AfterProfile(s: State, sha: seq<byte> -> seq<byte>, v: Json)
    requires StateOk(s, sha) && Proper(v) && CanonicalText(v) !in s.profiles
    ensures HeldBy(WithProfile(s, v)) == AddSettings(HeldBy(s), v)
    ensures Grown(s.l, WithProfile(s, v).l) && StoredProfile(WithProfile(s, v).l, s.k.profile, CanonicalText(v))
    ensures s.k.profile <= U32_MAX && (s.k.profile < U32_MAX ==> StateOk(WithProfile(s, v), sha))
  {
    hide *;
    StateIs(s, sha);
    ProfileGrows(s.l, sha, v);
    ProfileShape(s, v, sha);
    var b := WithProfile(s, v);
    MemosKeep(s.l, b.l, s.actors, s.profiles);
    MemosSettle(b.l, s.actors, s.profiles, CanonicalText(v), s.k.profile);
    OneMoreProfile(s.l.t.profiles, s.profiles, v);
    StateIs(b, sha);
  }

  lemma ProfileShape(s: State, v: Json, sha: seq<byte> -> seq<byte>)
    requires StateOk(s, sha)
    ensures s.k.profile == |s.l.t.profiles| + 1 <= U32_MAX
    ensures var b := WithProfile(s, v);
            && b == State(s.l.(t := s.l.t.(profiles := s.l.t.profiles + [ProfileEntry(|s.l.t.profiles| + 1, v)])),
                          s.payload, b.k, s.actors, s.profiles[CanonicalText(v) := s.k.profile])
            && HeldBy(b) == AddSettings(HeldBy(s), v) && b.l.pushed == s.l.pushed && b.l.t.actors == s.l.t.actors
            && b.l.t.profiles == s.l.t.profiles + [ProfileEntry(|s.l.t.profiles| + 1, v)]
            && (s.k.profile < U32_MAX ==> CountersOk(b.l, b.k))
  {
    SettingsSnoc(s.l.t.profiles, ProfileEntry(s.k.profile, v));
    hide LogOk, MemosOk, ProfilesOnce, ActorsOnce, Concat, CanonicalText;
  }

  lemma MemosSettle(l: Log, actors: map<seq<byte>, nat>, profiles: map<seq<byte>, nat>, text: seq<byte>, id: nat)
    requires MemosOk(l, actors, profiles) && StoredProfile(l, id, text)
    ensures MemosOk(l, actors, profiles[text := id])
  {
    hide StoredActor, StoredProfile;
  }

  lemma OneMoreActor(n: nat, actors: map<seq<byte>, nat>, key: seq<byte>)
    requires ActorsOnce(n, actors) && key !in actors
    ensures ActorsOnce(n + 1, actors[key := n + 1])
  {
    var more := actors[key := n + 1];
    forall id: nat | Named(id, n + 1) ensures LeadsTo(more, id) {
      if id == n + 1 {
        assert key in more && more[key] == id;
      } else {
        assert LeadsTo(actors, id);
        var k :| k in actors && actors[k] == id;
        assert k in more && more[k] == id;
      }
    }
  }

  lemma OneMoreProfile(entries: seq<ProfileEntry>, profiles: map<seq<byte>, nat>, v: Json)
    requires ProfilesOnce(entries, profiles) && CanonicalText(v) !in profiles
    ensures ProfilesOnce(entries + [ProfileEntry(|entries| + 1, v)], profiles[CanonicalText(v) := |entries| + 1])
  {
    hide CanonicalText;
  }

  // ---- the builder ----

  class Builder {
    var payload: seq<byte>
    var tables: Tables
    var nextPayloadRef: nat
    var nextStringRef: nat
    var nextDigestRef: nat
    var nextPolicyRef: nat
    var nextLabelId: nat
    var nextActorId: nat
    var nextProfileId: nat
    var nextReviewId: nat
    var actors: map<seq<byte>, nat>
    var profiles: map<seq<byte>, nat>
    const sha: seq<byte> -> seq<byte>
    ghost var pushed: seq<seq<byte>>

    ghost function Now(): State
      reads this
    {
      State(Log(pushed, tables), payload,
            Counters(nextPayloadRef, nextStringRef, nextDigestRef, nextPolicyRef, nextLabelId, nextActorId,
                     nextProfileId, nextReviewId),
            actors, profiles)
    }

    ghost function Held(): Brought
      reads this
    {
      HeldBy(Now())
    }

    /** All counters together: no single one can run out before this does. */
    ghost function Used(): nat
      reads this
    {
      nextPayloadRef + nextStringRef + nextDigestRef + nextPolicyRef + nextLabelId + nextActorId + nextProfileId
      + nextReviewId
    }

    ghost predicate Valid()
      reads this
    {
      StateOk(Now(), sha)
    }

    constructor (digest: seq<byte> -> seq<byte>)
      requires forall x: seq<byte> :: |digest(x)| == DIGEST_LEN
      ensures Valid() && Now().l == Log([], NoTables()) && sha == digest && Used() == 8 && Held() == Nothing()
    {
      payload, tables, pushed, sha := [], NoTables(), [], digest;
      nextPayloadRef, nextStringRef, nextDigestRef, nextPolicyRef := 1, 1, 1, 1;
      nextLabelId, nextActorId, nextProfileId, nextReviewId := 1, 1, 1, 1;
      actors, profiles := map[], map[];
    }

    /** `push_payload_ref`: nothing for no bytes, else the next dense reference. */
    method PushPayloadRef(bytes: seq<byte>) returns (r: Result<nat>)
      requires Valid()
      modifies this`payload, this`tables, this`nextPayloadRef, this`pushed
      ensures r.Ok? <==> bytes == [] || old(nextPayloadRef) < U32_MAX
      ensures r.Err? ==> unchanged(this)
      ensures r.Ok? ==> Valid() && Grown(old(Now().l), Now().l) && Stored(Now().l, r.value, bytes)
      ensures r.Ok? ==> Now() == if bytes == [] then old(Now()) else Pushed(old(Now()), bytes)
      ensures r.Ok? && bytes != [] ==> Named(r.value, |pushed|)
      ensures r.Ok? ==> Held() == old(Held())
      ensures old(Used()) + 1 <= U32_MAX ==> r.Ok?
      ensures r.Ok? ==> Used() <= old(Used()) + 1
    {
      hide StateOk, Grown, Stored, HeldBy;
      if bytes == [] {
        NothingStored(Now().l);
        return Ok(0);
      }
      AfterPush(Now(), bytes, sha);
      if nextPayloadRef == U32_MAX { return Err(ArithOverflow); }
      var ref := nextPayloadRef;
      nextPayloadRef := nextPayloadRef + 1;
      tables := tables.(payloadRefs := tables.payloadRefs + [PayloadRef(ref, |payload|, |bytes|)]);
      payload := payload + bytes;
      pushed := pushed + [bytes];
      return Ok(ref);
    }

    /** `push_json_payload_ref`: the compact text of a value is never empty. */
    method PushJson(v: Json) returns (r: Result<nat>)
      requires Valid() && Proper(v)
      modifies this`payload, this`tables, this`nextPayloadRef, this`pushed
      ensures r.Ok? ==> Valid() && Grown(old(Now().l), Now().l) && StoredJson(Now().l, r.value, Some(v))
      ensures r.Ok? ==> Now() == Pushed(old(Now()), Print(v)) && Named(r.value, |pushed|)
      ensures r.Ok? ==> Held() == old(Held())
      ensures old(Used()) + 1 <= U32_MAX ==> r.Ok?
      ensures r.Ok? ==> Used() <= old(Used()) + 1
    {
      hide StateOk, Grown, Stored, StoredJson, Print, HeldBy;
      PrintStarts(v);
      r := PushPayloadRef(Print(v));
      if r.Ok? { JsonStored(Now().l, r.value, v); }
    }

    /** `push_digest_ref` */
    method PushDigestRef(bytes: seq<byte>) returns (r: Result<nat>)
      requires Valid()
      modifies this`payload, this`tables, this`nextPayloadRef, this`pushed, this`nextDigestRef
      ensures r.Ok? ==> Valid() && Grown(old(Now().l), Now().l) && StoredDigest(Now().l, r.value, sha(bytes))
      ensures r.Ok? ==> Held() == old(Held())
      ensures r.Ok? ==> tables == old(tables).(payloadRefs := tables.payloadRefs, digests := tables.digests)
      ensures old(Used()) + 2 <= U32_MAX ==> r.Ok?
      ensures r.Ok? ==> Used() <= old(Used()) + 2
    {
      hide StateOk, Grown, Stored, StoredDigest, HeldBy;
      ghost var l0 := Now().l;
      DigestLength(Now(), sha, bytes);
      var payloadRef := PushPayloadRef(sha(bytes));
      if payloadRef.Err? { return payloadRef; }
      ghost var l1 := Now().l;
      AfterDigest(Now(), sha, payloadRef.value, sha(bytes));
      if nextDigestRef == U32_MAX { return Err(ArithOverflow); }
      var ref := nextDigestRef;
      nextDigestRef := nextDigestRef + 1;
      tables := tables.(digests := tables.digests + [DigestEntry(ref, payloadRef.value)]);
      GrownTrans(l0, l1, Now().l);
      return Ok(ref);
    }

    /** `push_policy_ref`: the payload, its digest, then the policy naming both. */
    method PushPolicyRef(kind: nat, v: Json) returns (r: Result<nat>)
      requires Valid() && Proper(v) && kind < POLICY_KINDS
      modifies this`payload, this`tables, this`nextPayloadRef, this`pushed, this`nextDigestRef, this`nextPolicyRef
      ensures r.Ok? ==> Held() == old(Held())
      ensures r.Ok? ==> Valid() && Grown(old(Now().l), Now().l) && StoredPolicy(Now().l, r.value, kind, Some(v))
      ensures r.Ok? ==>
                tables == old(tables).(payloadRefs := tables.payloadRefs, digests := tables.digests,
                                       policies := tables.policies)
      ensures old(Used()) + 4 <= U32_MAX ==> r.Ok?
      ensures r.Ok? ==> Used() <= old(Used()) + 4
    {
      hide StateOk, Grown, Stored, StoredDigest, StoredJson, StoredPolicy, HeldBy;
      ghost var l0 := Now().l;
      var payloadRef := PushJson(v);
      if payloadRef.Err? { return payloadRef; }
      ghost var l1 := Now().l;
      var digestRef := PushDigestRef(Print(v));
      if digestRef.Err? { return digestRef; }
      ghost var l2 := Now().l;
      StoredKeeps(l1, l2, payloadRef.value, [], Some(v), kind);
      AfterPolicy(Now(), sha, kind, payloadRef.value, digestRef.value, v);
      if nextPolicyRef == U32_MAX { return Err(ArithOverflow); }
      var ref := nextPolicyRef;
      nextPolicyRef := nextPolicyRef + 1;
      tables := tables.(policies := tables.policies + [PolicyEntry(ref, kind, payloadRef.value, digestRef.value)]);
      GrownTrans(l0, l1, l2);
      GrownTrans(l0, l2, Now().l);
      return Ok(ref);
    }

    /** `push_string_ref`: nothing for an empty text. */
    method PushStringRef(text: seq<byte>) returns (r: Result<nat>)
      requires Valid()
      modifies this`payload, this`tables, this`nextPayloadRef, this`pushed, this`nextStringRef
      ensures r.Ok? ==> Valid() && Grown(old(Now().l), Now().l) && StoredText(Now().l, r.value, text)
      ensures r.Ok? ==> Held() == AddText(old(Held()), text)
      ensures r.Ok? ==> tables == old(tables).(payloadRefs := tables.payloadRefs, strings := tables.strings)
      ensures old(Used()) + 2 <= U32_MAX ==> r.Ok?
      ensures r.Ok? ==> Used() <= old(Used()) + 2
    {
      hide StateOk, Grown, Stored, StoredText, HeldBy;
      ghost var l0 := Now().l;
      if text == [] {
        NothingStored(l0);
        return Ok(0);
      }
      if nextStringRef == U32_MAX { return Err(ArithOverflow); }
      var payloadRef := PushPayloadRef(text);
      if payloadRef.Err? { return payloadRef; }
      ghost var l1 := Now().l;
      AfterString(Now(), sha, payloadRef.value, text);
      var ref := nextStringRef;
      nextStringRef := nextStringRef + 1;
      tables := tables.(strings := tables.strings + [StringEntry(ref, |text| % 0x1_0000_0000, payloadRef.value)]);
      GrownTrans(l0, l1, Now().l);
      return Ok(ref);
    }

    /** `push_model_actor`: one entry per key; the first caller's family and policy stay. */
    method PushModelActor(g: Generator, policyRef: nat) returns (r: Result<nat>)
      requires Valid() && Issued(policyRef, |tables.policies|)
      modifies this`payload, this`tables, this`nextPayloadRef, this`pushed, this`nextStringRef, this`nextActorId,
        this`actors
      ensures r.Ok? ==> Valid() && Grown(old(Now().l), Now().l) && StoredActor(Now().l, r.value, KeyOf(g))
      ensures r.Ok? ==> Held() == AddActor(old(Held()), g)
      ensures r.Ok? ==>
                tables == old(tables).(payloadRefs := tables.payloadRefs, strings := tables.strings,
                                       actors := tables.actors)
      ensures old(Used()) + 13 <= U32_MAX ==> r.Ok?
      ensures r.Ok? ==> Used() <= old(Used()) + 13
    {
      hide StateOk, Grown, Stored, StoredText, StoredActor, KeyOf, TextsStored, HeldBy;
      ghost var l0 := Now().l;
      HeldKeys(Now());
      var key := KeyOf(g);
      if key in actors {
        MemoActor(Now(), sha, key);
        return Ok(actors[key]);
      }
      if nextActorId == U32_MAX { return Err(ArithOverflow); }
      var refs :- PushTexts(g);
      ghost var l1 := Now().l;
      HeldKeys(Now());
      AddTextsKeys(old(Held()), Texts(g));
      AfterActor(Now(), sha, g, refs, policyRef);
      var id := nextActorId;
      nextActorId := nextActorId + 1;
      tables := tables.(actors := tables.actors + [ActorWith(id, refs, policyRef)]);
      actors := actors[key := id];
      GrownTrans(l0, l1, Now().l);
      return Ok(id);
    }

    /** The six string references of an actor, in order. */
    method PushTexts(g: Generator) returns (r: Result<seq<nat>>)
      requires Valid()
      modifies this`payload, this`tables, this`nextPayloadRef, this`pushed, this`nextStringRef
      ensures r.Ok? ==> Valid() && Grown(old(Now().l), Now().l)
      ensures r.Ok? ==> |r.value| == 6 && TextsStored(Now().l, r.value, Texts(g))
      ensures r.Ok? ==> Held() == AddTexts(old(Held()), Texts(g))
      ensures r.Ok? ==> tables == old(tables).(payloadRefs := tables.payloadRefs, strings := tables.strings)
      ensures old(Used()) + 12 <= U32_MAX ==> r.Ok?
      ensures r.Ok? ==> Used() <= old(Used()) + 12
    {
      hide StateOk, Grown, Stored, StoredText, HeldBy, AddText;
      ghost var l0 := Now().l;
      var refs: seq<nat> := [];
      NothingStored(l0);
      for i := 0 to 6
        invariant Valid() && Grown(l0, Now().l) && |refs| == i && TextsStored(Now().l, refs, Texts(g)[..i])
        invariant Used() <= old(Used()) + 2 * i && Held() == AddTexts(old(Held()), Texts(g)[..i])
        invariant tables == old(tables).(payloadRefs := tables.payloadRefs, strings := tables.strings)
      {
        ghost var before := Now().l;
        var ref := PushStringRef(Texts(g)[i]);
        if ref.Err? { return Err(ref.error); }
        TextsAdd(before, Now().l, refs, Texts(g)[..i], ref.value, Texts(g)[i]);
        AddTextsStep(old(Held()), Texts(g), i);
        GrownTrans(l0, before, Now().l);
        assert Texts(g)[..i + 1] == Texts(g)[..i] + [Texts(g)[i]];
        refs := refs + [ref.value];
      }
      assert Texts(g)[..6] == Texts(g);
      return Ok(refs);
    }

    /** `push_decoding_profile`: none for a value that is not an object, else one entry
        per canonical text. */
    method PushDecodingProfile(v: Json) returns (r: Result<nat>)
      requires Valid() && Proper(v)
      modifies this`tables, this`nextProfileId, this`profiles
      ensures r.Ok? ==> Valid() && Grown(old(Now().l), Now().l) && Issued(r.value, |tables.profiles|)
      ensures r.Ok? ==> if v.JObject? then StoredProfile(Now().l, r.value, CanonicalText(v)) else r.value == 0
      ensures r.Ok? ==> Held() == AddProfile(old(Held()), v)
      ensures r.Ok? ==> tables == old(tables).(profiles := tables.profiles)
      ensures old(Used()) + 1 <= U32_MAX ==> r.Ok?
      ensures r.Ok? ==> Used() <= old(Used()) + 1
    {
      hide StateOk, Grown, StoredProfile, CanonicalText, Proper, HeldBy;
      NothingStored(Now().l);
      HeldKeys(Now());
      if !v.JObject? { return Ok(0); }
      var key := CanonicalText(v);
      if key in profiles {
        MemoProfile(Now(), sha, key);
        return Ok(profiles[key]);
      }
      AfterProfile(Now(), sha, v);
      if nextProfileId == U32_MAX { return Err(ArithOverflow); }
      var id := nextProfileId;
      nextProfileId := nextProfileId + 1;
      tables := tables.(profiles := tables.profiles + [ProfileEntry(id, v)]);
      profiles := profiles[key := id];
      ProfileNamed(Now().l, id, key);
      return Ok(id);
    }

    /** `push_human_review` */
    method PushHumanReview(rv: Review, policyRef: nat) returns (r: Result<nat>)
      requires Valid() && ProperReview(rv) && Issued(policyRef, |tables.policies|)
      modifies this`payload, this`tables, this`nextPayloadRef, this`pushed, this`nextStringRef, this`nextReviewId
      ensures r.Ok? ==> Valid() && Grown(old(Now().l), Now().l) && StoredReview(Now().l, r.value, rv, policyRef)
      ensures r.Ok? ==> rv.rating.Ok? && Held() == AddReview(old(Held()), rv)
      ensures r.Ok? ==>
                tables == old(tables).(payloadRefs := tables.payloadRefs, strings := tables.strings,
                                       reviews := tables.reviews)
      ensures rv.rating.Ok? && old(Used()) + 4 <= U32_MAX ==> r.Ok?
      ensures r.Ok? ==> Used() <= old(Used()) + 4
    {
      hide StateOk, Grown, Stored, StoredText, StoredJson, Proper, HeldBy, AddText, AddReviewKind, CountersOk,
        ContentsOf;
      ghost var l0 := Now().l;
      if nextReviewId == U32_MAX { return Err(ArithOverflow); }
      NothingStored(l0);
      var notes := PushJsonOpt(rv.notes);
      if notes.Err? { return notes; }
      var notesRef := notes.value;
      ghost var l1 := Now().l;
      var roleRef := PushStringRef(rv.role);
      if roleRef.Err? { return roleRef; }
      if rv.rating.Err? { return rv.rating; }
      ghost var l2 := Now().l;
      StoredKeeps(l1, l2, notesRef, [], rv.notes, 0);
      ReviewParts(l2, notesRef, rv.notes, roleRef.value, rv.role);
      var e := ReviewEntry(nextReviewId, roleRef.value, notesRef, policyRef, rv.kind, rv.rating.value);
      AfterReview(Now(), sha, e);
      nextReviewId := nextReviewId + 1;
      tables := tables.(reviews := tables.reviews + [e]);
      StoredKeeps(l2, Now().l, notesRef, [], rv.notes, 0);
      StoredKeeps(l2, Now().l, roleRef.value, rv.role, None, 0);
      GrownTrans(l0, l1, l2);
      GrownTrans(l0, l2, Now().l);
      return Ok(e.id);
    }

    /** `push_generator_provenance`: actor, decoding profile and prompt, then the record
        named after the sample. */
    method PushGeneratorProvenance(g: Generator, sampleId: nat, reviewRef: nat, policyRef: nat) returns (r: Result<nat>)
      requires Valid() && ProperGenerator(g)
      requires Issued(reviewRef, |tables.reviews|) && Issued(policyRef, |tables.policies|)
      modifies this`payload, this`tables, this`nextPayloadRef, this`pushed, this`nextStringRef, this`nextActorId,
               this`actors, this`nextProfileId, this`profiles
      ensures r.Ok? ==> Valid() && Grown(old(Now().l), Now().l)
      ensures r.Ok? ==> r.value == Max(sampleId, 1)
      ensures r.Ok? ==> StoredProvenance(Now().l, r.value, g, sampleId, reviewRef, policyRef)
      ensures r.Ok? ==>
                tables == old(tables).(payloadRefs := tables.payloadRefs, strings := tables.strings,
                                       actors := tables.actors,
                                       profiles := tables.profiles, provenance := tables.provenance)
      ensures r.Ok? ==> g.confidence.Ok? && Held() == AddGenerator(old(Held()), g, sampleId)
      ensures g.confidence.Ok? && old(Used()) + 15 <= U32_MAX ==> r.Ok?
      ensures r.Ok? ==> Used() <= old(Used()) + 15
    {
      hide StateOk, Grown, Stored, StoredText, StoredJson, StoredActor, StoredProfile, StoredProvenance, Proper, KeyOf,
           CanonicalText, HeldBy, AddActor, AddProfile;
      ghost var l0 := Now().l;
      var actorRef := PushModelActor(g, policyRef);
      if actorRef.Err? { return actorRef; }
      ghost var l1 := Now().l;
      var profileRef := PushDecodingProfile(g.decoding);
      if profileRef.Err? { return profileRef; }
      ghost var l2 := Now().l;
      NothingStored(l2);
      var prompt := PushJsonOpt(g.prompt);
      if prompt.Err? { return prompt; }
      var promptRef := prompt.value;
      ghost var l3 := Now().l;
      if g.confidence.Err? { return g.confidence; }
      ProvenanceParts(l1, l2, l3, g, actorRef.value, profileRef.value, promptRef);
      var e := ProvenanceEntry(Max(sampleId, 1), actorRef.value, promptRef, profileRef.value, sampleId, reviewRef,
                               policyRef, g.confidence.value);
      AfterProvenance(Now(), sha, e);
      tables := tables.(provenance := tables.provenance + [e]);
      ProvenanceStored(l3, Now().l, e, g);
      GrownTrans(l0, l1, l2);
      GrownTrans(l0, l2, l3);
      GrownTrans(l0, l3, Now().l);
      return Ok(e.id);
    }

    /** One label of a sample. */
    method PushLabel(x: Label, provenanceRef: nat, reviewRef: nat, evidenceRef: nat, policyRef: nat)
      returns (r: Result<nat>)
      requires Valid() && ProperLabel(x) && ProvenanceIssued(Now().l, provenanceRef)
      requires Issued(reviewRef, |tables.reviews|) && Issued(evidenceRef, |pushed|)
      requires Issued(policyRef, |tables.policies|)
      modifies this`payload, this`tables, this`nextPayloadRef, this`pushed, this`nextLabelId
      ensures r.Ok? ==> Valid() && Grown(old(Now().l), Now().l)
      ensures r.Ok? ==> r.value == |old(tables).labels| + 1 == |tables.labels|
      ensures r.Ok? ==> LabelIs(Now().l, |tables.labels| - 1, x, provenanceRef, reviewRef, evidenceRef, policyRef)
      ensures r.Ok? ==> x.confidence.Ok? && Held() == AddLabel(old(Held()), (x.kind, x.authority))
      ensures r.Ok? ==> tables == old(tables).(payloadRefs := tables.payloadRefs, labels := tables.labels)
      ensures x.confidence.Ok? && old(Used()) + 2 <= U32_MAX ==> r.Ok?
      ensures r.Ok? ==> Used() <= old(Used()) + 2
    {
      hide StateOk, Grown, Stored, StoredJson, ProvenanceIssued, Proper, HeldBy;
      ghost var l0 := Now().l;
      LabelCounter(Now(), sha);
      if nextLabelId == U64_MAX { return Err(ArithOverflow); }
      var payloadRef := PushJson(x.text);
      if payloadRef.Err? { return payloadRef; }
      if x.confidence.Err? { return x.confidence; }
      ghost var l1 := Now().l;
      KeptRefs(l0, l1, provenanceRef, evidenceRef);
      LabelCounter(Now(), sha);
      var e := LabelEntry(nextLabelId, payloadRef.value, provenanceRef, reviewRef, evidenceRef, policyRef, x.kind,
                          x.authority, x.confidence.value);
      AfterLabel(Now(), sha, e);
      nextLabelId := nextLabelId + 1;
      tables := tables.(labels := tables.labels + [e]);
      StoredKeeps(l1, Now().l, payloadRef.value, [], Some(x.text), 0);
      GrownTrans(l0, l1, Now().l);
      return Ok(e.id);
    }

    /** `push_preference_pair_from_sample`, after the pair has been parsed. */
    method PushPair(id: nat, pair: PreferencePair, provenanceRef: nat, reviewRef: nat, evidenceRef: nat, policyRef: nat)
      returns (r: Result<()>)
      requires Valid() && Proper(pair.prompt) && Proper(pair.chosen) && Proper(pair.rejected)
      requires ProvenanceIssued(Now().l, provenanceRef) && Issued(reviewRef, |tables.reviews|)
      requires Issued(evidenceRef, |pushed|) && Issued(policyRef, |tables.policies|)
      modifies this`payload, this`tables, this`nextPayloadRef, this`pushed
      ensures r.Ok? ==> Valid() && Grown(old(Now().l), Now().l)
      ensures r.Ok? ==> |tables.pairs| == |old(tables).pairs| + 1 && PairIs(Now().l, |tables.pairs| - 1, id, pair)
      ensures r.Ok? ==> tables == old(tables).(payloadRefs := tables.payloadRefs, pairs := tables.pairs)
      ensures r.Ok? ==> Held() == AddPairId(old(Held()), id)
      ensures old(Used()) + 3 <= U32_MAX ==> r.Ok?
      ensures r.Ok? ==> Used() <= old(Used()) + 3
    {
      hide StateOk, Grown, Stored, StoredJson, ProvenanceIssued, Proper, HeldBy;
      ghost var l0 := Now().l;
      var promptRef := PushJson(pair.prompt);
      if promptRef.Err? { return Err(promptRef.error); }
      ghost var l1 := Now().l;
      var chosenRef := PushJson(pair.chosen);
      if chosenRef.Err? { return Err(chosenRef.error); }
      ghost var l2 := Now().l;
      var rejectedRef := PushJson(pair.rejected);
      if rejectedRef.Err? { return Err(rejectedRef.error); }
      ghost var l3 := Now().l;
      GrownTrans(l0, l1, l2);
      GrownTrans(l0, l2, l3);
      GrownTrans(l1, l2, l3);
      KeptRefs(l0, l3, provenanceRef, evidenceRef);
      StoredKeeps(l1, l3, promptRef.value, [], Some(pair.prompt), 0);
      StoredKeeps(l2, l3, chosenRef.value, [], Some(pair.chosen), 0);
      PairParts(l3, promptRef.value, chosenRef.value, rejectedRef.value, pair);
      var e := PairEntry(id, promptRef.value, chosenRef.value, rejectedRef.value, provenanceRef, reviewRef, evidenceRef,
                         policyRef);
      AfterPair(Now(), sha, e);
      tables := tables.(pairs := tables.pairs + [e]);
      StoredKeeps(l3, Now().l, promptRef.value, [], Some(pair.prompt), 0);
      StoredKeeps(l3, Now().l, chosenRef.value, [], Some(pair.chosen), 0);
      StoredKeeps(l3, Now().l, rejectedRef.value, [], Some(pair.rejected), 0);
      GrownTrans(l0, l3, Now().l);
      return Ok(());
    }

    method PushJsonOpt(v: Option<Json>) returns (r: Result<nat>)
      requires Valid() && ProperOpt(v)
      modifies this`payload, this`tables, this`nextPayloadRef, this`pushed
      ensures r.Ok? ==> Valid() && Grown(old(Now().l), Now().l) && StoredJson(Now().l, r.value, v)
      ensures r.Ok? ==> Held() == old(Held())
      ensures r.Ok? ==> tables == old(tables).(payloadRefs := tables.payloadRefs)
      ensures old(Used()) + 1 <= U32_MAX ==> r.Ok?
      ensures r.Ok? ==> Used() <= old(Used()) + 1
    {
      hide StateOk, Grown, StoredJson, Proper, HeldBy;
      NothingStored(Now().l);
      if v.None? { return Ok(0); }
      r := PushJson(v.value);
    }

    method PushPolicyOpt(kind: nat, v: Option<Json>) returns (r: Result<nat>)
      requires Valid() && ProperOpt(v) && kind < POLICY_KINDS
      modifies this`payload, this`tables, this`nextPayloadRef, this`pushed, this`nextDigestRef, this`nextPolicyRef
      ensures r.Ok? ==> Held() == old(Held())
      ensures r.Ok? ==> Valid() && Grown(old(Now().l), Now().l) && StoredPolicy(Now().l, r.value, kind, v)
      ensures r.Ok? ==>
                tables == old(tables).(payloadRefs := tables.payloadRefs, digests := tables.digests,
                                       policies := tables.policies)
      ensures old(Used()) + 4 <= U32_MAX ==> r.Ok?
      ensures r.Ok? ==> Used() <= old(Used()) + 4
    {
      hide StateOk, Grown, StoredPolicy, Proper, HeldBy;
      NothingStored(Now().l);
      if v.None? { return Ok(0); }
      r := PushPolicyRef(kind, v.value);
    }

    /** The payload references of a sample, in the order they are pushed. */
    method PushSamplePayloads(s: Sample) returns (r: Result<SampleEntry>)
      requires Valid() && ProperSample(s)
      modifies this`payload, this`tables, this`nextPayloadRef, this`pushed
      ensures r.Ok? ==> Valid() && Grown(old(Now().l), Now().l) && PayloadsStored(Now().l, r.value, s)
      ensures r.Ok? ==> Held() == old(Held())
      ensures r.Ok? ==> tables == old(tables).(payloadRefs := tables.payloadRefs)
      ensures old(Used()) + 5 <= U32_MAX ==> r.Ok?
      ensures r.Ok? ==> Used() <= old(Used()) + 5
    {
      hide StateOk, Grown, Stored, StoredJson, PayloadsStored, ProperSample, HeldBy;
      SampleProper(s);
      ghost var l0 := Now().l;
      var input := PushPayloadRef(s.input);
      if input.Err? { return Err(input.error); }
      ghost var l1 := Now().l;
      var target := PushPayloadRef(s.target);
      if target.Err? { return Err(target.error); }
      ghost var l2 := Now().l;
      var metadata := PushPayloadRef(s.metadata);
      if metadata.Err? { return Err(metadata.error); }
      ghost var l3 := Now().l;
      var source := PushJsonOpt(s.source);
      if source.Err? { return Err(source.error); }
      ghost var l4 := Now().l;
      var evidence := PushJsonOpt(s.evidence);
      if evidence.Err? { return Err(evidence.error); }
      PayloadsAre(l0, l1, l2, l3, l4, Now().l, input.value, target.value, metadata.value, source.value,
                  evidence.value, s);
      return Ok(SampleEntry(s.id, s.split, source.value, evidence.value, input.value, target.value, 0,
                            metadata.value, 0, 0, 0, 0));
    }

    /** The labels of a sample, one after the other; the first id is returned as u32. */
    method PushLabels(s: Sample, provenanceRef: nat, reviewRef: nat, evidenceRef: nat, policyRef: nat)
      returns (r: Result<nat>)
      requires Valid() && ProperSample(s) && ProvenanceIssued(Now().l, provenanceRef)
      requires Issued(reviewRef, |tables.reviews|) && Issued(evidenceRef, |pushed|)
      requires Issued(policyRef, |tables.policies|)
      modifies this`payload, this`tables, this`nextPayloadRef, this`pushed, this`nextLabelId
      ensures r.Ok? ==> Valid() && Grown(old(Now().l), Now().l)
      ensures r.Ok? ==>
                LabelRun(Now().l, |old(tables).labels|, s.labels, |s.labels|, provenanceRef, reviewRef, evidenceRef,
                         policyRef)
                && r.value == LabelRefOf(|old(tables).labels|, |s.labels|)
      ensures r.Ok? ==> tables == old(tables).(payloadRefs := tables.payloadRefs, labels := tables.labels)
      ensures r.Ok? ==> Held() == AddLabels(old(Held()), s.labels) && LabelsReadable(s.labels)
      ensures LabelsReadable(s.labels) && old(Used()) + 2 * |s.labels| <= U32_MAX ==> r.Ok?
      ensures r.Ok? ==> Used() <= old(Used()) + 2 * |s.labels|
    {
      hide StateOk, Grown, LabelIs, LabelAt, ProvenanceIssued, Proper, ProperLabel, ProperSample, HeldBy, AddLabel;
      SampleProper(s);
      ghost var l0, first := Now().l, |tables.labels|;
      NothingStored(l0);
      var firstRef := 0;
      for i := 0 to |s.labels|
        invariant Valid() && Grown(l0, Now().l) && |tables.labels| == first + i && Used() <= old(Used()) + 2 * i
        invariant tables == old(tables).(payloadRefs := tables.payloadRefs, labels := tables.labels)
        invariant LabelRun(Now().l, first, s.labels, i, provenanceRef, reviewRef, evidenceRef, policyRef)
        invariant firstRef == LabelRefOf(first, i) && Held() == AddLabels(old(Held()), s.labels[..i])
        invariant LabelsReadable(s.labels[..i])
      {
        ghost var before := Now().l;
        KeptRefs(l0, before, provenanceRef, evidenceRef);
        var id := PushLabel(s.labels[i], provenanceRef, reviewRef, evidenceRef, policyRef);
        if id.Err? { return id; }
        AddLabelsStep(old(Held()), s.labels, i);
        RunGrows(before, Now().l, first, s.labels, i, provenanceRef, reviewRef, evidenceRef, policyRef);
        GrownTrans(l0, before, Now().l);
        if firstRef == 0 { firstRef := if id.value <= U32_MAX then id.value else 0; }
      }
      assert s.labels[..|s.labels|] == s.labels;
      return Ok(firstRef);
    }
  }

  predicate LabelsReadable(labels: seq<Label>) {
    forall i :: 0 <= i < |labels| ==> labels[i].confidence.Ok?
  }

  ghost predicate PayloadsStored(l: Log, e: SampleEntry, s: Sample) {
    && e.id == s.id && e.split == s.split
    && Stored(l, e.inputRef, s.input) && Stored(l, e.targetRef, s.target) && Stored(l, e.metadataRef, s.metadata)
    && StoredJson(l, e.sourceRef, s.source) && StoredJson(l, e.evidenceRef, s.evidence)
  }

  lemma PayloadsAre(l0: Log, l1: Log, l2: Log, l3: Log, l4: Log, l5: Log, input: nat, target: nat, metadata: nat,
                    source: nat, evidence: nat, s: Sample)
    requires Grown(l0, l1) && Grown(l1, l2) && Grown(l2, l3) && Grown(l3, l4) && Grown(l4, l5)
    requires Stored(l1, input, s.input) && Stored(l2, target, s.target) && Stored(l3, metadata, s.metadata)
    requires StoredJson(l4, source, s.source) && StoredJson(l5, evidence, s.evidence)
    ensures Grown(l0, l5)
    ensures PayloadsStored(l5, SampleEntry(s.id, s.split, source, evidence, input, target, 0, metadata, 0, 0, 0, 0), s)
  {
    hide Grown, Stored, StoredJson;
    GrownTrans(l3, l4, l5);
    GrownTrans(l2, l3, l5);
    GrownTrans(l1, l2, l5);
    GrownTrans(l0, l1, l5);
    StoredKeeps(l1, l5, input, s.input, None, 0);
    StoredKeeps(l2, l5, target, s.target, None, 0);
    StoredKeeps(l3, l5, metadata, s.metadata, None, 0);
    StoredKeeps(l4, l5, source, [], s.source, 0);
  }

  lemma SampleProper(s: Sample)
    requires ProperSample(s)
    ensures ProperOpt(s.source) && ProperOpt(s.evidence) && ProperOpt(s.policy) && ProperOpt(s.license)
    ensures s.review.Some? ==> ProperReview(s.review.value)
    ensures s.generator.Some? ==> ProperGenerator(s.generator.value)
    ensures forall i :: 0 <= i < |s.labels| ==> ProperLabel(s.labels[i])
    ensures s.pair.Some? && s.pair.value.Ok? ==>
              Proper(s.pair.value.value.prompt) && Proper(s.pair.value.value.chosen)
                && Proper(s.pair.value.value.rejected)
  {
  }

  /** Label j of a run that starts after `first` older labels. */
  ghost predicate LabelAt(l: Log, first: nat, j: nat, x: Label, provenanceRef: nat, reviewRef: nat, evidenceRef: nat,
                          policyRef: nat)
  {
    first + j < |l.t.labels| && LabelIs(l, first + j, x, provenanceRef, reviewRef, evidenceRef, policyRef)
  }

  ghost predicate LabelRun(l: Log, first: nat, labels: seq<Label>, n: nat, provenanceRef: nat, reviewRef: nat,
                           evidenceRef: nat, policyRef: nat)
  {
    n <= |labels| && forall j :: 0 <= j < n ==>
      LabelAt(l, first, j, labels[j], provenanceRef, reviewRef, evidenceRef, policyRef)
  }

  /** The first label's id, unless there is none or it does not fit u32. */
  function LabelRefOf(first: nat, n: nat): nat {
    if n == 0 || first + 1 > U32_MAX then 0 else first + 1
  }

  lemma LabelKeeps(a: Log, b: Log, first: nat, j: nat, x: Label, provenanceRef: nat, reviewRef: nat,
                   evidenceRef: nat, policyRef: nat)
    requires Grown(a, b) && LabelAt(a, first, j, x, provenanceRef, reviewRef, evidenceRef, policyRef)
    ensures LabelAt(b, first, j, x, provenanceRef, reviewRef, evidenceRef, policyRef)
  {
    StoredKeeps(a, b, a.t.labels[first + j].payloadRef, [], Some(x.text), 0);
  }

  lemma RunKeeps(a: Log, b: Log, first: nat, labels: seq<Label>, n: nat, provenanceRef: nat, reviewRef: nat,
                 evidenceRef: nat, policyRef: nat)
    requires Grown(a, b) && LabelRun(a, first, labels, n, provenanceRef, reviewRef, evidenceRef, policyRef)
    ensures LabelRun(b, first, labels, n, provenanceRef, reviewRef, evidenceRef, policyRef)
  {
    hide Grown, LabelAt;
    forall j | 0 <= j < n ensures LabelAt(b, first, j, labels[j], provenanceRef, reviewRef, evidenceRef, policyRef) {
      LabelKeeps(a, b, first, j, labels[j], provenanceRef, reviewRef, evidenceRef, policyRef);
    }
  }

  lemma RunGrows(a: Log, b: Log, first: nat, labels: seq<Label>, i: nat, provenanceRef: nat, reviewRef: nat,
                 evidenceRef: nat, policyRef: nat)
    requires Grown(a, b) && LabelRun(a, first, labels, i, provenanceRef, reviewRef, evidenceRef, policyRef)
    requires i < |labels|
    requires |b.t.labels| == first + i + 1
    requires LabelIs(b, first + i, labels[i], provenanceRef, reviewRef, evidenceRef, policyRef)
    ensures LabelRun(b, first, labels, i + 1, provenanceRef, reviewRef, evidenceRef, policyRef)
  {
    RunKeeps(a, b, first, labels, i, provenanceRef, reviewRef, evidenceRef, policyRef);
    hide Grown;
  }

  /** The record stands for this generator run. */
  ghost predicate ProvenanceIs(l: Log, i: nat, g: Generator, sampleId: nat, reviewRef: nat, policyRef: nat)
    requires i < |l.t.provenance|
  {
    var e := l.t.provenance[i];
    && e.sampleRef == sampleId && e.reviewRef == reviewRef && e.policyRef == policyRef
    && g.confidence == Ok(e.confidence)
    && StoredActor(l, e.actorRef, KeyOf(g)) && StoredJson(l, e.promptRef, g.prompt)
    && (if g.decoding.JObject? then StoredProfile(l, e.profileRef, CanonicalText(g.decoding)) else e.profileRef == 0)
  }

  ghost predicate StoredProvenance(l: Log, ref: nat, g: Generator, sampleId: nat, reviewRef: nat, policyRef: nat) {
    exists i ::
      0 <= i < |l.t.provenance| && l.t.provenance[i].id == ref && ProvenanceIs(l, i, g, sampleId, reviewRef, policyRef)
  }

  ghost predicate LabelIs(l: Log, i: nat, x: Label, provenanceRef: nat, reviewRef: nat, evidenceRef: nat,
                          policyRef: nat)
    requires i < |l.t.labels|
  {
    var e := l.t.labels[i];
    && StoredJson(l, e.payloadRef, Some(x.text)) && e.kind == x.kind && e.authority == x.authority
    && x.confidence == Ok(e.confidence) && e.provenanceRef == provenanceRef && e.reviewRef == reviewRef
    && e.evidenceRef == evidenceRef && e.policyRef == policyRef
  }

  ghost predicate PairIs(l: Log, i: nat, id: nat, pair: PreferencePair)
    requires i < |l.t.pairs|
  {
    var e := l.t.pairs[i];
    && e.id == id && StoredJson(l, e.promptRef, Some(pair.prompt)) && StoredJson(l, e.chosenRef, Some(pair.chosen))
    && StoredJson(l, e.rejectedRef, Some(pair.rejected))
  }

  lemma ProvenanceParts(l1: Log, l2: Log, l3: Log, g: Generator, actorRef: nat, profileRef: nat, promptRef: nat)
    requires Grown(l1, l2) && Grown(l2, l3) && StoredActor(l1, actorRef, KeyOf(g))
    requires StoredJson(l3, promptRef, g.prompt)
    requires Issued(profileRef, |l2.t.profiles|)
    requires if g.decoding.JObject? then StoredProfile(l2, profileRef, CanonicalText(g.decoding)) else profileRef == 0
    ensures Named(actorRef, |l3.t.actors|) && Issued(promptRef, |l3.pushed|) && Issued(profileRef, |l3.t.profiles|)
    ensures StoredActor(l3, actorRef, KeyOf(g))
    ensures if g.decoding.JObject? then StoredProfile(l3, profileRef, CanonicalText(g.decoding)) else profileRef == 0
  {
    ActorKeeps(l1, l2, actorRef, KeyOf(g));
    ActorKeeps(l2, l3, actorRef, KeyOf(g));
    StoredKeeps(l2, l3, profileRef, CanonicalText(g.decoding), None, 0);
  }

  lemma ProvenanceStored(a: Log, b: Log, e: ProvenanceEntry, g: Generator)
    requires Grown(a, b) && b.t.provenance == a.t.provenance + [e] && g.confidence == Ok(e.confidence)
    requires StoredActor(a, e.actorRef, KeyOf(g)) && StoredJson(a, e.promptRef, g.prompt)
    requires if g.decoding.JObject? then StoredProfile(a, e.profileRef, CanonicalText(g.decoding))
      else e.profileRef == 0
    ensures StoredProvenance(b, e.id, g, e.sampleRef, e.reviewRef, e.policyRef)
  {
    hide StoredActor, StoredJson, StoredProfile, KeyOf, CanonicalText;
    ActorKeeps(a, b, e.actorRef, KeyOf(g));
    StoredKeeps(a, b, e.promptRef, [], g.prompt, 0);
    StoredKeeps(a, b, e.profileRef, CanonicalText(g.decoding), None, 0);
    var i := |a.t.provenance|;
    assert b.t.provenance[i] == e;
    assert ProvenanceIs(b, i, g, e.sampleRef, e.reviewRef, e.policyRef);
  }

  lemma KeptRefs(a: Log, b: Log, provenanceRef: nat, evidenceRef: nat)
    requires Grown(a, b) && ProvenanceIssued(a, provenanceRef) && Issued(evidenceRef, |a.pushed|)
    ensures ProvenanceIssued(b, provenanceRef) && Issued(evidenceRef, |b.pushed|)
  {
    GrownKeeps(a, b, provenanceRef);
  }

  lemma LabelCounter(s: State, sha: seq<byte> -> seq<byte>)
    requires StateOk(s, sha)
    ensures s.k.label_ == |s.l.t.labels| + 1
  {
  }

  lemma PairParts(l: Log, promptRef: nat, chosenRef: nat, rejectedRef: nat, pair: PreferencePair)
    requires StoredJson(l, promptRef, Some(pair.prompt)) && StoredJson(l, chosenRef, Some(pair.chosen))
    requires StoredJson(l, rejectedRef, Some(pair.rejected))
    ensures Named(promptRef, |l.pushed|) && Named(chosenRef, |l.pushed|) && Named(rejectedRef, |l.pushed|)
  {
  }

  ghost predicate StoredReview(l: Log, ref: nat, rv: Review, policyRef: nat) {
    && Named(ref, |l.t.reviews|)
    && var e := l.t.reviews[ref - 1];
       && e.policyRef == policyRef && e.kind == rv.kind && rv.rating == Ok(e.rating)
       && StoredJson(l, e.notesRef, rv.notes) && StoredText(l, e.roleRef, rv.role)
  }

  lemma ReviewParts(l: Log, notesRef: nat, notes: Option<Json>, roleRef: nat, role: seq<byte>)
    requires StoredJson(l, notesRef, notes) && StoredText(l, roleRef, role)
    ensures Issued(notesRef, |l.pushed|) && Issued(roleRef, |l.t.strings|)
  {
  }

  lemma MemoActor(s: State, sha: seq<byte> -> seq<byte>, key: seq<byte>)
    requires StateOk(s, sha) && key in s.actors
    ensures StoredActor(s.l, s.actors[key], key) && Grown(s.l, s.l)
  {
  }

  lemma MemoProfile(s: State, sha: seq<byte> -> seq<byte>, key: seq<byte>)
    requires StateOk(s, sha) && key in s.profiles
    ensures StoredProfile(s.l, s.profiles[key], key) && Issued(s.profiles[key], |s.l.t.profiles|)
  {
  }

  lemma ProfileNamed(l: Log, id: nat, key: seq<byte>)
    requires StoredProfile(l, id, key)
    ensures Issued(id, |l.t.profiles|)
  {
  }

  lemma JsonStored(l: Log, ref: nat, v: Json)
    requires Stored(l, ref, Print(v)) && Named(ref, |l.pushed|)
    ensures StoredJson(l, ref, Some(v))
  {
  }

  lemma DigestLength(s: State, sha: seq<byte> -> seq<byte>, bytes: seq<byte>)
    requires StateOk(s, sha)
    ensures |sha(bytes)| == DIGEST_LEN
  {
  }

  lemma NothingStored(l: Log)
    ensures Grown(l, l) && Stored(l, 0, []) && StoredText(l, 0, []) && StoredJson(l, 0, None)
    ensures forall kind :: StoredPolicy(l, 0, kind, None)
  {
  }

  lemma HeldKeys(s: State)
    ensures HeldBy(s).keys == s.actors.Keys && HeldBy(s).settled == s.profiles.Keys
  {
  }

  lemma {:induction false} AddTextsKeys(b: Brought, texts: seq<seq<byte>>)
    ensures AddTexts(b, texts).keys == b.keys && AddTexts(b, texts).settled == b.settled
    decreases |texts|
  {
    if texts != [] { AddTextsKeys(b, texts[..|texts| - 1]); }
  }
}
