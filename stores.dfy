/**
 * The record container and the two request handlers that use it. The
 * container is read whole on each request and, after an accepted upload,
 * overwritten whole.
 */
module Stores {
  import opened Wrappers
  import opened Text
  import opened Tokens
  import opened Records
  import opened Matching
  import opened Upload

  /** Why a search was refused: the conversion of that field raised. */
  datatype QueryError = AgeNotInteger | WeightNotNumber

  /** The container of prescription records, as one in-memory sequence. */
  class Store {
    var records: seq<Prescription>

    /** A container that currently holds `initial`. */
    constructor (initial: seq<Prescription>)
      ensures records == initial
    {
      records := initial;
    }

    /** Read the whole container. */
    method Load() returns (data: seq<Prescription>)
      ensures data == records
    {
      data := records;
    }

    /** Overwrite the whole container with `data`. */
    method Save(data: seq<Prescription>)
      modifies this
      ensures records == data
    {
      records := data;
    }

    /**
     * The search request: convert age and weight (failing before the store is
     * read), tokenise the symptoms, and collect the matching records' entries
     * in store order.
     */
    method Search(age: Option<int>, weight: Option<real>, rawSymptoms: string)
      returns (outcome: Result<seq<MatchResult>, QueryError>)
      ensures age.None? <==> outcome == Err(AgeNotInteger)
      ensures age.Some? && weight.None? <==> outcome == Err(WeightNotNumber)
      ensures age.Some? && weight.Some? <==> outcome.Ok?
      ensures outcome.Ok? ==>
        && age.Some? && weight.Some?
        && outcome.value == MatchingResults(records, age.value, weight.value, QueryTokens(rawSymptoms))
    {
      if age.None? {
        return Err(AgeNotInteger);
      }
      if weight.None? {
        return Err(WeightNotNumber);
      }
      var tokens := QueryTokens(rawSymptoms);
      var prescriptions := Load();
      var results := SearchRecords(prescriptions, age.value, weight.value, tokens);
      outcome := Ok(results);
    }

    /**
     * The upload request: validate the form and only then load, append the
     * new record and save. A refused form leaves the container as it was; an
     * accepted one adds exactly one record at the end.
     */
    method Upload(form: UploadForm) returns (outcome: Result<Prescription, UploadError>)
      modifies this
      ensures outcome == Validate(form)
      ensures outcome.Err? ==> records == old(records)
      ensures outcome.Ok? ==> records == old(records) + [outcome.value]
      ensures AllWellFormed(old(records)) ==> AllWellFormed(records)
    {
      outcome := Validate(form);
      if outcome.Ok? {
        var prescriptions := Load();
        prescriptions := prescriptions + [outcome.value];
        AppendWellFormed(old(records), outcome.value);
        Save(prescriptions);
      }
    }
  }

  /** Saving a sequence and loading it back yields that sequence, record for record. */
  method SaveThenLoad(store: Store, data: seq<Prescription>) returns (loaded: seq<Prescription>)
    modifies store
    ensures loaded == data && store.records == data
  {
    store.Save(data);
    loaded := store.Load();
  }

  /** Appending a well-formed record keeps every record of the container well-formed. */
  lemma AppendWellFormed(store: seq<Prescription>, p: Prescription)
    requires WellFormed(p)
    ensures AllWellFormed(store) ==> AllWellFormed(store + [p])
  {
  }

  /** The casing of the symptoms typed into the search form does not change the results. */
  lemma SearchIgnoresQueryCase(
    store: seq<Prescription>, age: int, weight: real, raw1: string, raw2: string)
    requires Lower(raw1) == Lower(raw2)
    ensures MatchingResults(store, age, weight, QueryTokens(raw1))
         == MatchingResults(store, age, weight, QueryTokens(raw2))
  {
    QueryTokensIgnoreCase(raw1, raw2);
  }

  /**
   * After an accepted upload the results of any search are those of the old
   * records, followed by the new record's entry when it matches.
   */
  lemma SearchAfterUpload(
    store: seq<Prescription>, p: Prescription, age: int, weight: real, tokens: seq<string>)
    ensures MatchingResults(store + [p], age, weight, tokens)
         == MatchingResults(store, age, weight, tokens)
            + (if Matches(p, age, weight, tokens) then [Project(p)] else [])
  {
    assert (store + [p])[..|store|] == store;
  }

  /**
   * A record accepted from a form is found again by a search whose symptoms
   * field is the one it was uploaded with, at any age and weight in its ranges.
   */
  lemma UploadedRecordFindable(form: UploadForm, age: int, weight: real)
    requires Validate(form).Ok?
    requires var p := Validate(form).value;
      p.ageMin <= age <= p.ageMax && p.weightMin <= weight <= p.weightMax
    ensures Matches(Validate(form).value, age, weight, QueryTokens(form.symptoms))
  {
    var p := Validate(form).value;
    var t := p.symptoms[0];
    QueryTokensWithoutEmpty(form.symptoms);
    var queried := QueryTokens(form.symptoms);
    assert LowerAll(p.symptoms)[0] == Lower(t);
    assert Lower(t) in DropEmpty(queried);
    DropEmptyMember(queried, Lower(t));
    var i :| 0 <= i < |queried| && queried[i] == Lower(t);
    OneSharedSymptomSuffices(p, age, weight, queried, i, 0);
  }
}
