/** Worked cases of the search, small enough to follow by hand. */
module Scenarios {
  import opened Text
  import opened Tokens
  import opened Records
  import opened Matching

  const Paracetamol := Prescription("Paracetamol", "500mg", 5, 60, 15.0, 90.0, ["Fever", "Headache"])

  lemma {:induction false} LowerNoUpper(s: string)
    requires NoUpper(s)
    ensures Lower(s) == s
  {
  }

  /** A single lower-case word with no comma is its own single query token. */
  lemma QueryOneWord(w: string)
    requires ',' !in w && IsStripped(w) && NoUpper(w)
    ensures QueryTokens(w) == [w]
  {
    SplitNoSeparator(w, ',');
    StripStripped(w);
    LowerNoUpper(w);
  }

  lemma SingleRecord(p: Prescription, age: int, weight: real, tokens: seq<string>)
    ensures MatchingResults([p], age, weight, tokens)
         == if Matches(p, age, weight, tokens) then [Project(p)] else []
  {
    assert [p][..0] == [];
  }

  lemma ParacetamolTreatsHeadache(tokens: seq<string>)
    requires tokens == ["headache"]
    ensures Matches(Paracetamol, 30, 70.0, tokens)
  {
    assert Lower("Headache") == tokens[0];
    OneSharedSymptomSuffices(Paracetamol, 30, 70.0, tokens, 0, 1);
  }

  /**
   * A patient aged 30 weighing 70 with a headache gets exactly the stored
   * paracetamol record back, its symptoms as they were stored.
   */
  lemma ParacetamolForHeadache(query: string)
    requires query == "headache"
    ensures MatchingResults([Paracetamol], 30, 70.0, QueryTokens(query)) == [Project(Paracetamol)]
    ensures Project(Paracetamol).symptoms == ["Fever", "Headache"]
  {
    QueryOneWord(query);
    ParacetamolTreatsHeadache(QueryTokens(query));
    SingleRecord(Paracetamol, 30, 70.0, QueryTokens(query));
  }

  const CoughSyrup := Prescription("Syrup", "10ml", 2, 10, 10.0, 40.0, ["Fever", "Cough"])

  lemma SplitTwoWords(w1: string, w2: string)
    requires ',' !in w1 && ',' !in w2
    ensures Split(w1 + ", " + w2, ',') == [w1, " " + w2]
  {
    assert w1 + ", " + w2 == w1 + [','] + (" " + w2);
    SplitAfterPiece(w1, ',', " " + w2);
    SplitNoSeparator(" " + w2, ',');
  }

  lemma StripLeadingSpace(w: string)
    requires IsStripped(w)
    ensures Strip(" " + w) == w
  {
    assert (" " + w)[1..] == w;
    assert TrimStart(" " + w) == TrimStart(w);
    StripStripped(w);
    assert TrimStart(w) == w;
  }

  /** Two lower-case words separated by a comma and a space are read as those two tokens. */
  lemma QueryTwoWords(w1: string, w2: string)
    requires ',' !in w1 && IsStripped(w1) && NoUpper(w1)
    requires ',' !in w2 && IsStripped(w2) && NoUpper(w2)
    ensures QueryTokens(w1 + ", " + w2) == [w1, w2]
  {
    SplitTwoWords(w1, w2);
    QueryTokensOfPieces(w1 + ", " + w2, [w1, " " + w2]);
    StripTwoWords(w1, w2);
    LowerTwoWords(w1, w2);
  }

  lemma QueryTokensOfPieces(raw: string, pieces: seq<string>)
    requires Split(raw, ',') == pieces
    ensures QueryTokens(raw) == LowerAll(StripAll(pieces))
  {
  }

  lemma StripTwoWords(w1: string, w2: string)
    requires IsStripped(w1) && IsStripped(w2)
    ensures StripAll([w1, " " + w2]) == [w1, w2]
  {
    StripAllTwo(w1, " " + w2);
    StripStripped(w1);
    StripLeadingSpace(w2);
  }

  lemma StripAllTwo(a: string, b: string)
    ensures StripAll([a, b]) == [Strip(a), Strip(b)]
  {
    assert [a, b][1..] == [b];
  }

  lemma LowerTwoWords(w1: string, w2: string)
    requires NoUpper(w1) && NoUpper(w2)
    ensures LowerAll([w1, w2]) == [w1, w2]
  {
    LowerNoUpper(w1);
    LowerNoUpper(w2);
    assert [w1, w2][1..] == [w2];
  }

  lemma CoughSyrupSymptoms()
    ensures LowerAll(CoughSyrup.symptoms) == ["fever", "cough"]
  {
    assert Lower("Fever") == "fever";
    assert Lower("Cough") == "cough";
  }

  /** The syrup's age range 2 to 10 includes both ends and nothing beyond them. */
  lemma SyrupAgeBounds(tokens: seq<string>)
    requires tokens == ["cough"]
    ensures Matches(CoughSyrup, 2, 20.0, tokens) && Matches(CoughSyrup, 10, 20.0, tokens)
    ensures !Matches(CoughSyrup, 1, 20.0, tokens) && !Matches(CoughSyrup, 11, 20.0, tokens)
  {
    CoughSyrupSymptoms();
    OneSharedSymptomSuffices(CoughSyrup, 5, 20.0, tokens, 0, 1);
    RangesInclusive(CoughSyrup, tokens, 5, 20.0);
  }

  /** One shared symptom, in another casing, is enough: "cough, rash" finds the cough syrup. */
  lemma CoughOrRashFindsSyrup(query: string)
    requires query == "cough, rash"
    ensures Matches(CoughSyrup, 5, 20.0, QueryTokens(query))
  {
    assert query == "cough" + ", " + "rash";
    QueryTwoWords("cough", "rash");
    CoughSyrupSymptoms();
    OneSharedSymptomSuffices(CoughSyrup, 5, 20.0, QueryTokens(query), 0, 1);
  }

  /** Neither "rash" nor "headache" is a symptom of the cough syrup. */
  lemma SyrupSharesNothing(tokens: seq<string>)
    requires tokens == ["rash", "headache"]
    ensures !SharesSymptom(tokens, CoughSyrup.symptoms)
  {
    CoughSyrupSymptoms();
    var lowered := LowerAll(CoughSyrup.symptoms);
    forall i | 0 <= i < |tokens| ensures tokens[i] !in lowered {
      assert |tokens[i]| != |lowered[0]| && |tokens[i]| != |lowered[1]|;
    }
  }

  /** Without a shared symptom there is no match: "rash, headache" does not find it. */
  lemma RashOrHeadacheMissesSyrup(query: string)
    requires query == "rash, headache"
    ensures !Matches(CoughSyrup, 5, 20.0, QueryTokens(query))
  {
    assert query == "rash" + ", " + "headache";
    QueryTwoWords("rash", "headache");
    SyrupSharesNothing(QueryTokens(query));
  }
}
