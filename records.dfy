/** The one entity of the system: a prescription record as the store holds it. */
module Records {
  import opened Text

  /**
   * A prescription: what to give, how much, and to whom it applies (an
   * inclusive age range, an inclusive weight range and the symptoms it
   * treats, in the casing they were entered with).
   */
  datatype Prescription = Prescription(
    medicine: string,
    dosage: string,
    ageMin: int,
    ageMax: int,
    weightMin: real,
    weightMax: real,
    symptoms: seq<string>)

  /**
   * What the upload path guarantees of every record it stores: trimmed
   * non-empty names, ordered ranges, and at least one symptom, each trimmed
   * and non-empty.
   */
  predicate WellFormed(p: Prescription): (r: bool)
    ensures r ==> Strip(p.medicine) == p.medicine != [] && Strip(p.dosage) == p.dosage != []
    ensures r ==> forall k :: 0 <= k < |p.symptoms| ==> Strip(p.symptoms[k]) == p.symptoms[k]
  {
    var ok :=
      && p.medicine != [] && IsStripped(p.medicine)
      && p.dosage != [] && IsStripped(p.dosage)
      && p.ageMin <= p.ageMax
      && p.weightMin <= p.weightMax
      && |p.symptoms| > 0
      && forall k :: 0 <= k < |p.symptoms| ==> p.symptoms[k] != [] && IsStripped(p.symptoms[k]);
    if ok then
      StripStripped(p.medicine);
      StripStripped(p.dosage);
      forall k | 0 <= k < |p.symptoms| ensures Strip(p.symptoms[k]) == p.symptoms[k] {
        StripStripped(p.symptoms[k]);
      }
      ok
    else ok
  }

  predicate AllWellFormed(store: seq<Prescription>) {
    forall k :: 0 <= k < |store| ==> WellFormed(store[k])
  }
}
