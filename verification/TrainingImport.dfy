/** Importing rows into a training sidecar: the duplicate check on text ids, then the
    build with its validation, which looks at the numeric ids. */
module TrainingImport {
  import opened Machine
  import opened CanonicalJson
  import opened SidecarTables
  import opened SidecarBuilder
  import opened TrainingSidecar
  import opened SidecarValidation
  import opened SampleIdentity

  /** The samples carry the ids of the rows they were made from. */
  ghost predicate MadeOf(samples: seq<Sample>, rows: seq<Json>, sha: seq<byte> -> seq<byte>) {
    && |samples| == |rows| && (forall x: seq<byte> :: |sha(x)| == DIGEST_LEN)
    && forall i :: 0 <= i < |rows| ==> samples[i].id == SampleId(IdText(i, rows[i]), rows[i], sha)
  }

  /** `import_values`: a dry run stops after the text ids; otherwise the sidecar is built. */
  method ImportValues(rows: seq<Json>, samples: seq<Sample>, dryRun: bool, plan: Option<Plan>, seed: nat,
                      sha: seq<byte> -> seq<byte>, topP: Json -> nat)
    returns (r: Result<Option<Sidecar>>)
    requires MadeOf(samples, rows, sha) && (plan.Some? ==> ProperPlan(plan.value))
    requires forall i :: 0 <= i < |samples| ==> ProperSample(samples[i])
    ensures dryRun ==> (r.Ok? <==> TextsDistinct(rows)) && (r.Ok? ==> r.value.None?)
    ensures !dryRun && r.Ok? ==> TextsDistinct(rows) && AllReadable(samples) && Admissible(samples, topP)
    ensures !dryRun && r.Ok? ==>
              r.value.Some? && exists pushed :: SidecarOk(r.value.value, pushed, samples, plan, seed, sha)
    ensures !dryRun && 40 + TotalCost(samples) <= U32_MAX ==>
              (r.Ok? <==> TextsDistinct(rows) && AllReadable(samples) && Admissible(samples, topP))
  {
    DigestsFull(samples, rows, sha);
    hide *;
    var texts := ImportIds(rows);
    if texts.Err? { return Err(texts.error); }
    if dryRun { return Ok(None); }
    var built, pushed := BuildTrainingSidecar(samples, plan, seed, sha, topP);
    if built.Err? { return Err(built.error); }
    return Ok(Some(built.value));
  }

  lemma DigestsFull(samples: seq<Sample>, rows: seq<Json>, sha: seq<byte> -> seq<byte>)
    requires MadeOf(samples, rows, sha)
    ensures forall x: seq<byte> :: |sha(x)| == DIGEST_LEN
  {
  }

  /** Sample ids are never zero, so the build's id check is about repeats alone; for rows
      numbered by `sample_id` it passes exactly when the numbers differ, 0 counting as 1. */
  lemma NumberedIdsUniqueIff(samples: seq<Sample>, rows: seq<Json>, sha: seq<byte> -> seq<byte>)
    requires MadeOf(samples, rows, sha)
    ensures UniqueIds(OwnIds(samples))
            <==> forall i, j :: 0 <= i < j < |samples| ==> samples[i].id != samples[j].id
    ensures (forall i :: 0 <= i < |rows| ==> NumberOf(rows[i]).Some?) ==>
              (UniqueIds(OwnIds(samples)) <==>
                 forall i, j :: 0 <= i < j < |rows| ==>
                   Max(NumberOf(rows[i]).value, 1) != Max(NumberOf(rows[j]).value, 1))
  {
    hide IdText, NumberOf;
    forall i | 0 <= i < |samples| ensures OwnIds(samples)[i] == samples[i].id != 0 {
      assert samples[i].id == SampleId(IdText(i, rows[i]), rows[i], sha);
    }
    hide SampleId;
    if UniqueIds(OwnIds(samples)) {
      forall i, j | 0 <= i < j < |samples| ensures samples[i].id != samples[j].id {
        assert OwnIds(samples)[i] != OwnIds(samples)[j];
      }
    }
    if forall i :: 0 <= i < |rows| ==> NumberOf(rows[i]).Some? {
      forall i | 0 <= i < |rows| ensures samples[i].id == Max(NumberOf(rows[i]).value, 1) {
        NumberedId(i, rows[i], sha);
        assert samples[i].id == SampleId(IdText(i, rows[i]), rows[i], sha);
      }
      hide MadeOf;
    }
  }

  lemma NumberedId(i: nat, row: Json, sha: seq<byte> -> seq<byte>)
    requires NumberOf(row).Some? && |sha(IdText(i, row))| >= 8
    ensures SampleId(IdText(i, row), row, sha) == Max(NumberOf(row).value, 1)
  {
    hide IdText, NumberOf;
  }

  /** The row `{"sample_id": 7}`. */
  function Seven(): Json {
    JObject([Pair(SAMPLE_ID, JNumber([55]))])
  }

  /** Given twice, that row passes the duplicate check, so a dry run succeeds, and no
      import of it does. */
  lemma RepeatedNumberIsRefused(samples: seq<Sample>, sha: seq<byte> -> seq<byte>, topP: Json -> nat)
    requires MadeOf(samples, [Seven(), Seven()], sha)
    ensures TextsDistinct([Seven(), Seven()]) && !Admissible(samples, topP)
  {
    var rows := [Seven(), Seven()];
    SevenNumber();
    hide NumberOf, Seven, IdText;
    NumberedRowsPass(rows);
    NumberedIdsUniqueIff(samples, rows, sha);
    assert Max(NumberOf(rows[0]).value, 1) == Max(NumberOf(rows[1]).value, 1);
  }

  lemma SevenNumber()
    ensures NumberOf(Seven()) == Some(7)
  {
    var s: seq<byte> := [55];
    assert s[..0] == [] && DecimalValue(s[..0]) == 0;
    assert DecimalValue(s) == 7;
  }
}
