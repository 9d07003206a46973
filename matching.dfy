/**
 * The search side: which stored prescriptions apply to a patient of a given
 * age and weight with given symptoms, and the loop that collects them.
 */
module Matching {
  import opened Text
  import opened Tokens
  import opened Records

  /** What the search reports for one matching record. */
  datatype MatchResult = MatchResult(
    medicine: string,
    dosage: string,
    ageMin: int,
    ageMax: int,
    weightMin: real,
    weightMax: real,
    symptoms: seq<string>)

  /** The record a result entry describes, field for field. */
  function AsRecord(m: MatchResult): Prescription {
    Prescription(m.medicine, m.dosage, m.ageMin, m.ageMax, m.weightMin, m.weightMax, m.symptoms)
  }

  /**
   * The result entry built from a matching record. It loses nothing: the
   * record can be read back from it, symptoms in their stored casing.
   */
  function Project(p: Prescription): (m: MatchResult)
    ensures AsRecord(m) == p
  {
    MatchResult(p.medicine, p.dosage, p.ageMin, p.ageMax, p.weightMin, p.weightMax, p.symptoms)
  }

  /**
   * Some query token equals some record symptom once the latter is
   * case-folded, as `any(sym in pres_symptoms for sym in input_symptoms)`.
   */
  predicate SharesSymptom(tokens: seq<string>, symptoms: seq<string>): (r: bool)
    ensures r <==> exists i, j :: 0 <= i < |tokens| && 0 <= j < |symptoms| && tokens[i] == Lower(symptoms[j])
  {
    var lowered := LowerAll(symptoms);
    var shared := exists i :: 0 <= i < |tokens| && tokens[i] in lowered;
    if shared then
      var i :| 0 <= i < |tokens| && tokens[i] in lowered;
      var j :| 0 <= j < |lowered| && lowered[j] == tokens[i];
      assert tokens[i] == Lower(symptoms[j]);
      shared
    else
      assert forall i, j :: 0 <= i < |tokens| && 0 <= j < |symptoms| ==> tokens[i] != lowered[j];
      shared
  }

  /**
   * Both ranges hold the patient, bounds included, and at least one symptom
   * is shared; so a matching record has ordered ranges, and neither the query
   * nor the record is without symptoms.
   */
  predicate Matches(p: Prescription, age: int, weight: real, tokens: seq<string>): (r: bool)
    ensures r ==> p.ageMin <= p.ageMax && p.weightMin <= p.weightMax
    ensures r ==> |tokens| > 0 && |p.symptoms| > 0
  {
    && p.ageMin <= age <= p.ageMax
    && p.weightMin <= weight <= p.weightMax
    && SharesSymptom(tokens, p.symptoms)
  }

  /** The result entries of the matching records, in store order. */
  function MatchingResults(store: seq<Prescription>, age: int, weight: real, tokens: seq<string>)
    : (r: seq<MatchResult>)
    ensures |r| <= |store|
  {
    if store == [] then []
    else
      var last := store[|store| - 1];
      MatchingResults(store[..|store| - 1], age, weight, tokens)
        + (if Matches(last, age, weight, tokens) then [Project(last)] else [])
  }

  /** The search loop: scan the records in order and append each match's entry. */
  method SearchRecords(prescriptions: seq<Prescription>, age: int, weight: real, tokens: seq<string>)
    returns (results: seq<MatchResult>)
    ensures results == MatchingResults(prescriptions, age, weight, tokens)
  {
    results := [];
    for i := 0 to |prescriptions|
      invariant results == MatchingResults(prescriptions[..i], age, weight, tokens)
    {
      var p := prescriptions[i];
      if Matches(p, age, weight, tokens) {
        results := results + [Project(p)];
      }
      assert prescriptions[..i + 1][..i] == prescriptions[..i];
    }
    assert prescriptions[..|prescriptions|] == prescriptions;
  }

  /**
   * The results of a concatenated store are the results of its parts, in the
   * same order: the search keeps the relative order of the store.
   */
  lemma {:induction false} MatchingResultsAppend(
    a: seq<Prescription>, b: seq<Prescription>, age: int, weight: real, tokens: seq<string>)
    ensures MatchingResults(a + b, age, weight, tokens)
         == MatchingResults(a, age, weight, tokens) + MatchingResults(b, age, weight, tokens)
  {
    if b == [] {
      assert a + b == a;
    } else {
      var b' := b[..|b| - 1];
      MatchingResultsAppend(a, b', age, weight, tokens);
      assert (a + b)[..|a + b| - 1] == a + b';
      assert (a + b)[|a + b| - 1] == b[|b| - 1];
    }
  }

  /**
   * An entry is in the results exactly when some stored record matches and
   * projects to it.
   */
  lemma {:induction false} MatchingResultsMember(
    store: seq<Prescription>, age: int, weight: real, tokens: seq<string>, m: MatchResult)
    ensures m in MatchingResults(store, age, weight, tokens)
        <==> exists j :: 0 <= j < |store| && Matches(store[j], age, weight, tokens) && Project(store[j]) == m
  {
    if store != [] {
      var init := store[..|store| - 1];
      var last := store[|store| - 1];
      MatchingResultsMember(init, age, weight, tokens, m);
      assert forall j :: 0 <= j < |init| ==> init[j] == store[j];
      var tail := if Matches(last, age, weight, tokens) then [Project(last)] else [];
      assert MatchingResults(store, age, weight, tokens) == MatchingResults(init, age, weight, tokens) + tail;
      assert m in tail <==> Matches(last, age, weight, tokens) && Project(last) == m;
    }
  }

  /** Every entry carries the fields of a matching record, the symptoms in their stored casing. */
  lemma ResultsAreMatchingRecords(store: seq<Prescription>, age: int, weight: real, tokens: seq<string>, k: int)
    requires 0 <= k < |MatchingResults(store, age, weight, tokens)|
    ensures var m := MatchingResults(store, age, weight, tokens)[k];
      exists j :: 0 <= j < |store| && Matches(store[j], age, weight, tokens)
        && m.medicine == store[j].medicine && m.dosage == store[j].dosage
        && m.ageMin == store[j].ageMin && m.ageMax == store[j].ageMax
        && m.weightMin == store[j].weightMin && m.weightMax == store[j].weightMax
        && m.symptoms == store[j].symptoms
  {
    var m := MatchingResults(store, age, weight, tokens)[k];
    MatchingResultsMember(store, age, weight, tokens, m);
  }

  /** No match is not an error: the results are empty exactly when no record matches. */
  lemma {:induction false} MatchingResultsEmpty(store: seq<Prescription>, age: int, weight: real, tokens: seq<string>)
    ensures MatchingResults(store, age, weight, tokens) == []
        <==> forall j :: 0 <= j < |store| ==> !Matches(store[j], age, weight, tokens)
  {
    if store != [] {
      var init := store[..|store| - 1];
      MatchingResultsEmpty(init, age, weight, tokens);
      assert forall j :: 0 <= j < |init| ==> init[j] == store[j];
    }
  }

  /** Both ends of both ranges are inside them; one step past either end is outside. */
  lemma RangesInclusive(p: Prescription, tokens: seq<string>, age: int, weight: real)
    requires p.ageMin <= p.ageMax && p.weightMin <= p.weightMax
    requires SharesSymptom(tokens, p.symptoms)
    requires p.ageMin <= age <= p.ageMax && p.weightMin <= weight <= p.weightMax
    ensures Matches(p, p.ageMin, weight, tokens) && Matches(p, p.ageMax, weight, tokens)
    ensures !Matches(p, p.ageMin - 1, weight, tokens) && !Matches(p, p.ageMax + 1, weight, tokens)
    ensures Matches(p, age, p.weightMin, tokens) && Matches(p, age, p.weightMax, tokens)
    ensures forall w :: w < p.weightMin || p.weightMax < w ==> !Matches(p, age, w, tokens)
  {
  }

  /**
   * One shared symptom is enough, whatever its casing in the record and
   * whatever the other tokens are.
   */
  lemma OneSharedSymptomSuffices(p: Prescription, age: int, weight: real, tokens: seq<string>, i: int, j: int)
    requires p.ageMin <= age <= p.ageMax && p.weightMin <= weight <= p.weightMax
    requires 0 <= i < |tokens| && 0 <= j < |p.symptoms|
    requires tokens[i] == Lower(p.symptoms[j])
    ensures Matches(p, age, weight, tokens)
  {
    assert LowerAll(p.symptoms)[j] == tokens[i];
  }

  /** A record's symptoms take part in matching only through their case-folded form. */
  lemma MatchIgnoresRecordCase(p: Prescription, q: Prescription, age: int, weight: real, tokens: seq<string>)
    requires p.ageMin == q.ageMin && p.ageMax == q.ageMax
    requires p.weightMin == q.weightMin && p.weightMax == q.weightMax
    requires LowerAll(p.symptoms) == LowerAll(q.symptoms)
    ensures Matches(p, age, weight, tokens) == Matches(q, age, weight, tokens)
  {
  }

  /**
   * The empty tokens that the search tokeniser keeps never decide a match
   * against a record whose symptoms are all non-empty, as every uploaded
   * record's are.
   */
  lemma EmptyTokensIrrelevant(p: Prescription, age: int, weight: real, tokens: seq<string>)
    requires forall k :: 0 <= k < |p.symptoms| ==> p.symptoms[k] != []
    ensures Matches(p, age, weight, tokens) == Matches(p, age, weight, DropEmpty(tokens))
  {
    var lowered := LowerAll(p.symptoms);
    assert [] !in lowered by {
      forall k | 0 <= k < |lowered| ensures lowered[k] != [] {
        assert |lowered[k]| == |p.symptoms[k]|;
      }
    }
    if SharesSymptom(tokens, p.symptoms) {
      var i :| 0 <= i < |tokens| && tokens[i] in lowered;
      DropEmptyMember(tokens, tokens[i]);
      var i' :| 0 <= i' < |DropEmpty(tokens)| && DropEmpty(tokens)[i'] == tokens[i];
    }
    if SharesSymptom(DropEmpty(tokens), p.symptoms) {
      var i :| 0 <= i < |DropEmpty(tokens)| && DropEmpty(tokens)[i] in lowered;
      DropEmptyMember(tokens, DropEmpty(tokens)[i]);
    }
  }
}
