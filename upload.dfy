/**
 * The upload side: the checks a submitted form goes through, in the order the
 * handler makes them, and the record built from a form that passes them all.
 */
module Upload {
  import opened Wrappers
  import opened Text
  import opened Tokens
  import opened Records

  /**
   * The submitted upload form. The four numeric fields hold what `int()` or
   * `float()` made of the text: `None` where the conversion raised.
   */
  datatype UploadForm = UploadForm(
    medicine: string,
    dosage: string,
    ageMin: Option<int>,
    ageMax: Option<int>,
    weightMin: Option<real>,
    weightMax: Option<real>,
    symptoms: string)

  /** The numeric fields, in the order they are converted. */
  datatype NumberField = AgeMinField | AgeMaxField | WeightMinField | WeightMaxField

  /** Why an upload was refused. */
  datatype UploadError =
    | MissingName                     // medicine or dosage blank
    | Unparseable(field: NumberField) // the conversion of that field raised
    | AgeRangeInverted                // minimum age above maximum age
    | WeightRangeInverted             // minimum weight above maximum weight
    | NoSymptoms                      // every comma-separated symptom blank

  predicate NamesGiven(form: UploadForm) {
    Strip(form.medicine) != [] && Strip(form.dosage) != []
  }

  predicate NumbersParsed(form: UploadForm) {
    form.ageMin.Some? && form.ageMax.Some? && form.weightMin.Some? && form.weightMax.Some?
  }

  /**
   * The form's checks, each failing fast: names, then the four conversions in
   * field order, then the age range, the weight range and the symptoms. A form
   * that passes becomes a record of its cleaned fields.
   */
  function Validate(form: UploadForm): (r: Result<Prescription, UploadError>)
    ensures r == Err(MissingName) <==> !NamesGiven(form)
    ensures r == Err(Unparseable(AgeMinField)) <==> NamesGiven(form) && form.ageMin.None?
    ensures r == Err(Unparseable(AgeMaxField))
        <==> NamesGiven(form) && form.ageMin.Some? && form.ageMax.None?
    ensures r == Err(Unparseable(WeightMinField))
        <==> NamesGiven(form) && form.ageMin.Some? && form.ageMax.Some? && form.weightMin.None?
    ensures r == Err(Unparseable(WeightMaxField))
        <==> NamesGiven(form) && form.ageMin.Some? && form.ageMax.Some? && form.weightMin.Some?
             && form.weightMax.None?
    ensures r == Err(AgeRangeInverted)
        <==> NamesGiven(form) && NumbersParsed(form) && form.ageMin.value > form.ageMax.value
    ensures r == Err(WeightRangeInverted)
        <==> NamesGiven(form) && NumbersParsed(form) && form.ageMin.value <= form.ageMax.value
             && form.weightMin.value > form.weightMax.value
    ensures r == Err(NoSymptoms)
        <==> NamesGiven(form) && NumbersParsed(form) && form.ageMin.value <= form.ageMax.value
             && form.weightMin.value <= form.weightMax.value && Blank(Split(form.symptoms, ','))
    ensures r.Ok? ==> WellFormed(r.value)
    ensures r.Ok? ==>
      && r.value.medicine == Strip(form.medicine) && r.value.dosage == Strip(form.dosage)
      && Some(r.value.ageMin) == form.ageMin && Some(r.value.ageMax) == form.ageMax
      && Some(r.value.weightMin) == form.weightMin && Some(r.value.weightMax) == form.weightMax
      && r.value.symptoms == UploadTokens(form.symptoms)
  {
    var medicine := Strip(form.medicine);
    var dosage := Strip(form.dosage);
    if medicine == [] || dosage == [] then Err(MissingName)
    else if form.ageMin.None? then Err(Unparseable(AgeMinField))
    else if form.ageMax.None? then Err(Unparseable(AgeMaxField))
    else if form.weightMin.None? then Err(Unparseable(WeightMinField))
    else if form.weightMax.None? then Err(Unparseable(WeightMaxField))
    else
      var ageMin, ageMax := form.ageMin.value, form.ageMax.value;
      var weightMin, weightMax := form.weightMin.value, form.weightMax.value;
      if ageMin > ageMax then Err(AgeRangeInverted)
      else if weightMin > weightMax then Err(WeightRangeInverted)
      else
        var symptoms := UploadTokens(form.symptoms);
        UploadTokensEmpty(form.symptoms);
        if symptoms == [] then Err(NoSymptoms)
        else Ok(Prescription(medicine, dosage, ageMin, ageMax, weightMin, weightMax, symptoms))
  }

  /**
   * An inverted age range is reported ahead of anything wrong with the
   * weights or the symptoms, provided both weights convert: a weight that
   * does not convert is reported first, because the conversions all come
   * before the range checks.
   */
  lemma AgeRangeReportedBeforeWeights(form: UploadForm)
    requires NamesGiven(form) && form.ageMin.Some? && form.ageMax.Some?
    requires form.ageMin.value > form.ageMax.value
    ensures form.weightMin.Some? && form.weightMax.Some? ==> Validate(form) == Err(AgeRangeInverted)
    ensures form.weightMin.None? ==> Validate(form) == Err(Unparseable(WeightMinField))
    ensures form.weightMin.Some? && form.weightMax.None? ==> Validate(form) == Err(Unparseable(WeightMaxField))
  {
  }
}
