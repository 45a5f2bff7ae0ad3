/**
 * The control flow of one geocoding run (`main`): the edition lookup, the
 * delta query with its select-all fallback, the batch loop, normalisation,
 * validation, then the audit record and its commit strictly before the
 * append, which metadata-only mode skips.
 */
module Pipeline {
  import opened Wrappers
  import opened Records
  import opened Batching
  import opened Normalize
  import opened Schema

  const TableName: string := "employers_geo"
  const TargetSchema: string := "childcare"

  /** How the delta query ended: rows, the `ProgrammingError` of a missing relation, or another error. */
  datatype DeltaQuery = Selected(rows: seq<Candidate>) | ProgrammingError | OtherError

  /**
   * What a run reads from outside: the edition dates `metadata.toml` lists
   * for the table, the outcome of the delta query, the rows of the
   * select-all query, the geocoding service, and whether `record_metadata`
   * succeeds.
   */
  datatype World = World(
    editions: set<string>,
    delta: DeltaQuery,
    allRows: seq<Candidate>,
    geocode: seq<Request> -> seq<Response>,
    metadataRecorded: bool)

  /** The provenance record `record_metadata` writes for a run. */
  datatype AuditRecord = AuditRecord(table: string, editionDate: string, frame: Frame)

  /** An externally visible effect of the run, in the order it happens. */
  datatype Effect =
    | GeocodeCall(batch: seq<Request>)
    | RecordMetadata(record: AuditRecord)
    | CommitMetadata
    | AppendRows(schema: string, table: string, rows: seq<GeoRow>)

  /**
   * An exception that escapes `main`: the `KeyError` of an edition date the
   * configuration does not list, a failed query, the `KeyError` of a merge
   * with an empty answer, or a failed metadata record.
   */
  datatype RunError = UnknownEdition | QueryFailed | MergeFailed | MetadataFailed

  /** How `main` ends: a Python return value (`None`, or -1 on a schema failure) or an exception. */
  datatype Exit = Returned(code: Option<int>) | Raised(error: RunError)

  datatype Outcome = Outcome(exit: Exit, effects: seq<Effect>)

  /**
   * The candidates of the run: the delta query's rows, all rows when it
   * raised `ProgrammingError`, and nothing (the run aborts) on any other error.
   */
  function SelectCandidates(delta: DeltaQuery, allRows: seq<Candidate>): (c: Option<seq<Candidate>>)
    ensures c.None? <==> delta.OtherError?
    ensures delta.ProgrammingError? ==> c == Some(allRows)
    ensures delta.Selected? ==> c == Some(delta.rows)
  {
    match delta
    case Selected(rows) => Some(rows)
    case ProgrammingError => Some(allRows)
    case OtherError => None
  }

  /** The frame handed to validation for a run over `cands`, when the batch loop completes. */
  function GeocodedFrame(cands: seq<Candidate>, geocode: seq<Request> -> seq<Response>): Option<Frame>
  {
    match GeocodeAll(cands, geocode)
    case None => None
    case Some(ms) => Some(NormalizeFrame(ms))
  }

  /** The frame a run reaches validation with: none when it raised before. */
  function RunFrame(editionDate: string, w: World): Option<Frame>
  {
    if editionDate !in w.editions then None
    else match SelectCandidates(w.delta, w.allRows)
      case None => None
      case Some(cands) => GeocodedFrame(cands, w.geocode)
  }

  function GeocodeCalls(batches: seq<seq<Request>>): (es: seq<Effect>)
    ensures |es| == |batches|
    ensures forall i :: 0 <= i < |es| ==> es[i] == GeocodeCall(batches[i])
  {
    seq(|batches|, i requires 0 <= i < |batches| => GeocodeCall(batches[i]))
  }

  /** An append, wherever it occurs, follows a metadata record and its commit. */
  predicate AuditBeforeData(es: seq<Effect>)
  {
    forall i :: 0 <= i < |es| && es[i].AppendRows? ==>
      exists j, k :: 0 <= j < k < i && es[j].RecordMetadata? && es[k] == CommitMetadata
  }

  /** Every geocoder call comes before every other effect. */
  predicate CallsFirst(es: seq<Effect>)
  {
    forall i, j :: 0 <= i < j < |es| && es[j].GeocodeCall? ==> es[i].GeocodeCall?
  }

  /**
   * Everything after geocoding: validate; on failure return -1 and write
   * nothing; a failing `record_metadata` raises before its commit; otherwise
   * the metadata record, its commit, and then, unless in metadata-only mode,
   * the append of the validated rows.
   */
  function Finish(editionDate: string, metadataOnly: bool, metadataRecorded: bool, gdf: Frame): (o: Outcome)
    ensures Validate(gdf).Failure? ==> o == Outcome(Returned(Some(-1)), [])
    ensures Validate(gdf).Success? && !metadataRecorded ==> o == Outcome(Raised(MetadataFailed), [])
    ensures Validate(gdf).Success? && metadataRecorded ==>
      o == Outcome(Returned(None), Trail(AuditRecord(TableName, editionDate, gdf), gdf.rows, metadataOnly))
  {
    match Validate(gdf)
    case Failure(_) => Outcome(Returned(Some(-1)), [])
    case Success(validated) =>
      if !metadataRecorded then Outcome(Raised(MetadataFailed), [])
      else
        var audit := [RecordMetadata(AuditRecord(TableName, editionDate, gdf)), CommitMetadata];
        if metadataOnly then Outcome(Returned(None), audit)
        else Outcome(Returned(None), audit + [AppendRows(TargetSchema, TableName, validated.rows)])
  }

  /** The effects and exit of a whole run. */
  function RunSpec(editionDate: string, metadataOnly: bool, w: World): (o: Outcome)
    ensures editionDate !in w.editions ==> o == Outcome(Raised(UnknownEdition), [])
    ensures editionDate in w.editions && w.delta.OtherError? ==> o == Outcome(Raised(QueryFailed), [])
    ensures var c := SelectCandidates(w.delta, w.allRows);
      o.exit == Raised(MergeFailed) <==> editionDate in w.editions && c.Some? && GeocodeAll(c.value, w.geocode).None?
    ensures o.exit == Returned(None) <==>
      RunFrame(editionDate, w).Some? && w.metadataRecorded && Validate(RunFrame(editionDate, w).value).Success?
    ensures o.exit == Returned(Some(-1)) <==>
      RunFrame(editionDate, w).Some? && Validate(RunFrame(editionDate, w).value).Failure?
  {
    if editionDate !in w.editions then Outcome(Raised(UnknownEdition), [])
    else match SelectCandidates(w.delta, w.allRows)
      case None => Outcome(Raised(QueryFailed), [])
      case Some(cands) =>
        var calls := GeocodeCalls(Sent(cands, w.geocode));
        match GeocodedFrame(cands, w.geocode)
        case None => Outcome(Raised(MergeFailed), calls)
        case Some(gdf) =>
          var fin := Finish(editionDate, metadataOnly, w.metadataRecorded, gdf);
          Outcome(fin.exit, calls + fin.effects)
  }

  /**
   * The calls of a run that gets past the query: they come first, they send
   * the first batches of `array_split` in order, all of them unless an
   * empty answer made the merge raise, in which case that call was the
   * last effect of the run.
   */
  lemma RunCalls(editionDate: string, metadataOnly: bool, w: World, cands: seq<Candidate>)
    requires editionDate in w.editions && SelectCandidates(w.delta, w.allRows) == Some(cands)
    ensures var o := RunSpec(editionDate, metadataOnly, w);
      var n := |Sent(cands, w.geocode)|;
      1 <= n <= Calls(|cands|) && n <= |o.effects| &&
      o.effects[..n] == GeocodeCalls(Batches(cands)[..n]) &&
      (forall i :: n <= i < |o.effects| ==> !o.effects[i].GeocodeCall?) &&
      (o.exit != Raised(MergeFailed) ==> n == Calls(|cands|)) &&
      (o.exit == Raised(MergeFailed) ==> |o.effects| == n && w.geocode(Batches(cands)[n - 1]) == [])
  {
    var sent := Sent(cands, w.geocode);
    SentEnds(cands, w.geocode);
    match GeocodedFrame(cands, w.geocode)
    case None =>
      CallsPrefix(sent, []);
      assert GeocodeCalls(sent) + [] == GeocodeCalls(sent);
    case Some(gdf) =>
      var fin := Finish(editionDate, metadataOnly, w.metadataRecorded, gdf);
      FinishOrdering(editionDate, metadataOnly, w.metadataRecorded, gdf);
      CallsPrefix(sent, fin.effects);
  }

  /** A block of calls followed by other effects: the calls are exactly the first effects. */
  lemma CallsPrefix(batches: seq<seq<Request>>, rest: seq<Effect>)
    requires forall e :: e in rest ==> !e.GeocodeCall?
    ensures var es := GeocodeCalls(batches) + rest;
      es[..|batches|] == GeocodeCalls(batches) && forall i :: |batches| <= i < |es| ==> !es[i].GeocodeCall?
  {
    var es := GeocodeCalls(batches) + rest;
    forall i | |batches| <= i < |es|
      ensures !es[i].GeocodeCall?
    {
      assert es[i] == rest[i - |batches|];
    }
  }

  /**
   * With no candidates, the one call sends an empty batch; the service
   * answers it with no rows, the merge raises, and nothing is recorded or
   * appended.
   */
  lemma NoCandidatesRaise(editionDate: string, metadataOnly: bool, w: World)
    requires editionDate in w.editions && SelectCandidates(w.delta, w.allRows) == Some([])
    requires w.geocode([]) == []
    ensures var o := RunSpec(editionDate, metadataOnly, w);
      o == Outcome(Raised(MergeFailed), [GeocodeCall([])]) && Audits(o.effects) == [] && Appended(o.effects) == []
  {
    NoCandidatesFail(w.geocode);
    var o := RunSpec(editionDate, metadataOnly, w);
    assert o.effects == GeocodeCalls([[]]);
    CallsWriteNothing(o.effects, []);
    assert o.effects + [] == o.effects;
  }

  /**
   * The order of a run's effects: all geocoder calls first; an append only
   * after a metadata record and its commit; no append in metadata-only
   * mode; and a run that does not return normally (a -1 return or an
   * exception) leaves only geocoder calls.
   */
  lemma RunOrdering(editionDate: string, metadataOnly: bool, w: World)
    ensures var o := RunSpec(editionDate, metadataOnly, w);
      CallsFirst(o.effects) && AuditBeforeData(o.effects) &&
      (metadataOnly ==> forall e :: e in o.effects ==> !e.AppendRows?) &&
      (o.exit != Returned(None) ==> forall e :: e in o.effects ==> e.GeocodeCall?)
  {
    if editionDate in w.editions {
      match SelectCandidates(w.delta, w.allRows)
      case None =>
      case Some(cands) =>
        var calls := GeocodeCalls(Sent(cands, w.geocode));
        match GeocodedFrame(cands, w.geocode)
        case None =>
          CallsThenFinish(calls, []);
          assert calls + [] == calls;
        case Some(gdf) =>
          var fin := Finish(editionDate, metadataOnly, w.metadataRecorded, gdf);
          FinishOrdering(editionDate, metadataOnly, w.metadataRecorded, gdf);
          CallsThenFinish(calls, fin.effects);
    }
  }

  /** The writes after validation: record, commit, then append; none unless it returns normally. */
  lemma FinishOrdering(editionDate: string, metadataOnly: bool, metadataRecorded: bool, gdf: Frame)
    ensures var o := Finish(editionDate, metadataOnly, metadataRecorded, gdf);
      AuditBeforeData(o.effects) &&
      (forall e :: e in o.effects ==> !e.GeocodeCall?) &&
      (metadataOnly ==> forall e :: e in o.effects ==> !e.AppendRows?) &&
      (o.exit != Returned(None) ==> o.effects == [])
  {
    AuditTrail(AuditRecord(TableName, editionDate, gdf), gdf.rows, metadataOnly);
  }

  /** The effects of a completed run's last stage: a record, its commit and, maybe, the append. */
  function Trail(rec: AuditRecord, rows: seq<GeoRow>, metadataOnly: bool): seq<Effect>
  {
    [RecordMetadata(rec), CommitMetadata] + (if metadataOnly then [] else [AppendRows(TargetSchema, TableName, rows)])
  }

  lemma AuditTrail(rec: AuditRecord, rows: seq<GeoRow>, metadataOnly: bool)
    ensures var es := Trail(rec, rows, metadataOnly);
      AuditBeforeData(es) && (forall e :: e in es ==> !e.GeocodeCall?) &&
      (metadataOnly ==> forall e :: e in es ==> !e.AppendRows?) &&
      Audits(es) == [rec] && Appended(es) == (if metadataOnly then [] else rows)
  {
    var append := AppendRows(TargetSchema, TableName, rows);
    var audit := [RecordMetadata(rec), CommitMetadata];
    assert audit[1..] == [CommitMetadata] && [CommitMetadata][1..] == [];
    assert Audits(audit) == [rec];
    assert Appended(audit) == [];
    if !metadataOnly {
      var es := audit + [append];
      assert es[1..] == [CommitMetadata, append] && es[1..][1..] == [append] && [append][1..] == [];
      assert Audits([append]) == [] && Audits(es[1..]) == [];
      assert Audits(es) == [rec];
      assert Appended([append]) == rows;
      assert es[2].AppendRows? && es[0].RecordMetadata? && es[1] == CommitMetadata;
    }
  }

  /** Geocoder calls write nothing, so putting them first keeps the order of the writes. */
  lemma CallsThenFinish(calls: seq<Effect>, es: seq<Effect>)
    requires forall e :: e in calls ==> e.GeocodeCall?
    requires forall e :: e in es ==> !e.GeocodeCall?
    requires AuditBeforeData(es)
    ensures AuditBeforeData(calls + es) && CallsFirst(calls + es)
  {
    var all := calls + es;
    forall i | 0 <= i < |all| && all[i].AppendRows?
      ensures exists j, k :: 0 <= j < k < i && all[j].RecordMetadata? && all[k] == CommitMetadata
    {
      assert all[i] !in calls;
      var i' := i - |calls|;
      assert es[i'] == all[i];
      var j, k :| 0 <= j < k < i' && es[j].RecordMetadata? && es[k] == CommitMetadata;
      assert all[j + |calls|] == es[j] && all[k + |calls|] == es[k];
    }
    forall m | |calls| <= m < |all|
      ensures !all[m].GeocodeCall?
    {
      assert all[m] == es[m - |calls|];
    }
    forall i, j | 0 <= i < j < |all| && all[j].GeocodeCall?
      ensures all[i].GeocodeCall?
    {
      assert all[i] == calls[i];
    }
  }

  lemma RunSpecSelected(editionDate: string, metadataOnly: bool, w: World, cands: seq<Candidate>, gdf: Frame)
    requires editionDate in w.editions && SelectCandidates(w.delta, w.allRows) == Some(cands)
    requires GeocodedFrame(cands, w.geocode) == Some(gdf)
    ensures var fin := Finish(editionDate, metadataOnly, w.metadataRecorded, gdf);
      RunSpec(editionDate, metadataOnly, w) == Outcome(fin.exit, GeocodeCalls(Sent(cands, w.geocode)) + fin.effects)
  {
  }

  lemma AppendAssoc<T>(a: seq<T>, b: seq<T>, c: seq<T>)
    ensures (a + b) + c == a + (b + c)
  {
  }

  /**
   * The batch loop followed, when it completes, by the normalisation chain;
   * no frame when the merge raised.
   */
  method GeocodeAndNormalize(cands: seq<Candidate>, geocode: seq<Request> -> seq<Response>)
    returns (sent: seq<seq<Request>>, gdf: Option<Frame>)
    ensures sent == Sent(cands, geocode) && 1 <= |sent| <= Calls(|cands|)
    ensures gdf == GeocodedFrame(cands, geocode)
    ensures gdf.Some? ==> sent == Batches(cands)
  {
    var calls, geocoded;
    calls, sent, geocoded := SubmitBatches(cands, geocode);
    if geocoded.Some? {
      gdf := Some(NormalizeFrame(geocoded.value));
    } else {
      gdf := None;
    }
  }

  /** The audit records an effect sequence commits: each recorded one that a commit follows. */
  function Audits(es: seq<Effect>): (rs: seq<AuditRecord>)
  {
    if |es| < 2 then []
    else (if es[0].RecordMetadata? && es[1] == CommitMetadata then [es[0].record] else []) + Audits(es[1..])
  }

  /** The rows an effect sequence appends to the target table, in order. */
  function Appended(es: seq<Effect>): (rows: seq<GeoRow>)
  {
    if es == [] then [] else (if es[0].AppendRows? then es[0].rows else []) + Appended(es[1..])
  }

  /** Geocoder calls neither record metadata nor append rows. */
  lemma CallsWriteNothing(calls: seq<Effect>, es: seq<Effect>)
    requires forall i :: 0 <= i < |calls| ==> calls[i].GeocodeCall?
    ensures Audits(calls + es) == Audits(es)
    ensures Appended(calls + es) == Appended(es)
  {
    CallsAuditNothing(calls, es);
    CallsAppendNothing(calls, es);
  }

  lemma {:induction false} CallsAuditNothing(calls: seq<Effect>, es: seq<Effect>)
    requires forall i :: 0 <= i < |calls| ==> calls[i].GeocodeCall?
    ensures Audits(calls + es) == Audits(es)
  {
    if calls != [] {
      CallsAuditNothing(calls[1..], es);
      var all := calls + es;
      assert all[1..] == calls[1..] + es;
      assert all[0] == calls[0] && calls[0].GeocodeCall?;
      assert Audits(all) == Audits(all[1..]);
    } else {
      assert calls + es == es;
    }
  }

  lemma {:induction false} CallsAppendNothing(calls: seq<Effect>, es: seq<Effect>)
    requires forall i :: 0 <= i < |calls| ==> calls[i].GeocodeCall?
    ensures Appended(calls + es) == Appended(es)
  {
    if calls != [] {
      CallsAppendNothing(calls[1..], es);
      var all := calls + es;
      assert all[1..] == calls[1..] + es;
      assert all[0] == calls[0] && calls[0].GeocodeCall?;
      assert Appended(all) == Appended(all[1..]);
    } else {
      assert calls + es == es;
    }
  }

  /** Appended rows of a journal extended by later effects: the old rows, then the new ones. */
  lemma {:induction false} AppendedConcat(a: seq<Effect>, b: seq<Effect>)
    ensures Appended(a + b) == Appended(a) + Appended(b)
  {
    if a == [] {
      assert a + b == b;
    } else {
      AppendedConcat(a[1..], b);
      assert (a + b)[1..] == a[1..] + b;
      assert (a + b)[0] == a[0];
      AppendAssoc(if a[0].AppendRows? then a[0].rows else [], Appended(a[1..]), Appended(b));
    }
  }

  /**
   * Audit records of a journal extended by a run's effects, which are empty
   * or start with a geocoder call: the old records, then the new ones; a
   * record left at the end of the journal is not completed by what follows.
   */
  lemma {:induction false} AuditsConcat(a: seq<Effect>, b: seq<Effect>)
    requires b == [] || b[0].GeocodeCall?
    ensures Audits(a + b) == Audits(a) + Audits(b)
  {
    if a == [] {
      assert a + b == b;
    } else {
      AuditsConcat(a[1..], b);
      assert (a + b)[1..] == a[1..] + b;
      assert (a + b)[0] == a[0];
      if |a| >= 2 {
        assert (a + b)[1] == a[1];
        var head := if a[0].RecordMetadata? && a[1] == CommitMetadata then [a[0].record] else [];
        AppendAssoc(head, Audits(a[1..]), Audits(b));
      } else if b != [] {
        assert (a + b)[1] == b[0];
        assert a[1..] == [];
      }
    }
  }

  /**
   * What a run leaves in the two databases: one audit record for the
   * validated frame when it completes, and that frame's rows appended to
   * `employers_geo` unless in metadata-only mode; nothing otherwise.
   */
  lemma RunWrites(editionDate: string, metadataOnly: bool, w: World)
    ensures var o := RunSpec(editionDate, metadataOnly, w);
      if o.exit == Returned(None) then
        var gdf := RunFrame(editionDate, w).value;
        Audits(o.effects) == [AuditRecord(TableName, editionDate, gdf)] &&
        Appended(o.effects) == (if metadataOnly then [] else gdf.rows)
      else
        Audits(o.effects) == [] && Appended(o.effects) == []
  {
    if editionDate in w.editions {
      match SelectCandidates(w.delta, w.allRows)
      case None =>
      case Some(cands) =>
        var calls := GeocodeCalls(Sent(cands, w.geocode));
        match GeocodedFrame(cands, w.geocode)
        case None =>
          CallsWriteNothing(calls, []);
          assert calls + [] == calls;
        case Some(gdf) =>
          var fin := Finish(editionDate, metadataOnly, w.metadataRecorded, gdf);
          FinishWrites(editionDate, metadataOnly, w.metadataRecorded, gdf);
          CallsWriteNothing(calls, fin.effects);
    }
  }

  lemma FinishWrites(editionDate: string, metadataOnly: bool, metadataRecorded: bool, gdf: Frame)
    ensures var o := Finish(editionDate, metadataOnly, metadataRecorded, gdf);
      if o.exit == Returned(None) then
        Audits(o.effects) == [AuditRecord(TableName, editionDate, gdf)] &&
        Appended(o.effects) == (if metadataOnly then [] else gdf.rows)
      else
        Audits(o.effects) == [] && Appended(o.effects) == []
  {
    AuditTrail(AuditRecord(TableName, editionDate, gdf), gdf.rows, metadataOnly);
  }

  /** A run's effects are empty or begin with a geocoder call. */
  lemma RunStartsWithCall(editionDate: string, metadataOnly: bool, w: World)
    ensures var o := RunSpec(editionDate, metadataOnly, w);
      o.effects == [] || o.effects[0].GeocodeCall?
  {
    if editionDate in w.editions {
      match SelectCandidates(w.delta, w.allRows)
      case None =>
      case Some(cands) =>
        RunCalls(editionDate, metadataOnly, w, cands);
        var o := RunSpec(editionDate, metadataOnly, w);
        var n := |Sent(cands, w.geocode)|;
        assert o.effects[..n][0] == o.effects[0];
    }
  }

  /**
   * The databases the run touches, seen through the ordered journal of the
   * run's external effects: the committed audit records and the rows of the
   * `employers_geo` table are what the journal has committed and appended.
   */
  class Warehouse {
    var journal: seq<Effect>

    function AuditLog(): seq<AuditRecord>
      reads this
    {
      Audits(journal)
    }

    function EmployersGeo(): seq<GeoRow>
      reads this
    {
      Appended(journal)
    }

    constructor ()
      ensures journal == [] && AuditLog() == [] && EmployersGeo() == []
    {
      journal := [];
    }

    /**
     * One invocation of `main` for `editionDate`: its exit, its effects
     * added to the journal, and the audit records and rows those effects
     * add to the two databases.
     */
    method Run(editionDate: string, metadataOnly: bool, w: World) returns (exit: Exit)
      modifies this
      ensures var o := RunSpec(editionDate, metadataOnly, w);
        exit == o.exit && journal == old(journal) + o.effects
      ensures var o := RunSpec(editionDate, metadataOnly, w);
        AuditLog() == old(AuditLog()) + Audits(o.effects) &&
        EmployersGeo() == old(EmployersGeo()) + Appended(o.effects)
    {
      if editionDate !in w.editions {
        exit := Raised(UnknownEdition);
      } else {
        var selected := SelectCandidates(w.delta, w.allRows);
        if selected.None? {
          exit := Raised(QueryFailed);
        } else {
          var cands := selected.value;
          var sent, gdf := GeocodeAndNormalize(cands, w.geocode);
          ghost var before := journal;
          journal := journal + GeocodeCalls(sent);
          if gdf.None? {
            exit := Raised(MergeFailed);
          } else {
            exit := Conclude(editionDate, metadataOnly, w.metadataRecorded, gdf.value);
            RunSpecSelected(editionDate, metadataOnly, w, cands, gdf.value);
            AppendAssoc(before, GeocodeCalls(sent), Finish(editionDate, metadataOnly, w.metadataRecorded, gdf.value).effects);
          }
        }
      }
      RunStartsWithCall(editionDate, metadataOnly, w);
      AuditsConcat(old(journal), RunSpec(editionDate, metadataOnly, w).effects);
      AppendedConcat(old(journal), RunSpec(editionDate, metadataOnly, w).effects);
    }

    /**
     * The run after geocoding: validate `gdf`, then record and commit the
     * metadata, then append unless in metadata-only mode.
     */
    method Conclude(editionDate: string, metadataOnly: bool, metadataRecorded: bool, gdf: Frame)
      returns (exit: Exit)
      modifies this
      ensures var o := Finish(editionDate, metadataOnly, metadataRecorded, gdf);
        exit == o.exit && journal == old(journal) + o.effects
    {
      var validated := Validate(gdf);
      if validated.Failure? {
        assert Finish(editionDate, metadataOnly, metadataRecorded, gdf) == Outcome(Returned(Some(-1)), []);
        exit := Returned(Some(-1));
        return;
      }
      if !metadataRecorded {
        assert Finish(editionDate, metadataOnly, metadataRecorded, gdf) == Outcome(Raised(MetadataFailed), []);
        exit := Raised(MetadataFailed);
        return;
      }
      var record := AuditRecord(TableName, editionDate, gdf);
      journal := journal + [RecordMetadata(record), CommitMetadata];
      if !metadataOnly {
        AppendAssoc(old(journal), [RecordMetadata(record), CommitMetadata], [AppendRows(TargetSchema, TableName, validated.value.rows)]);
        journal := journal + [AppendRows(TargetSchema, TableName, validated.value.rows)];
      }
      exit := Returned(None);
    }
  }
}
