/**
 * The two ways the handlers turn the comma-separated symptoms field into a
 * list: the search side keeps every piece and folds its case, the upload side
 * keeps its case and drops the blank pieces.
 */
module Tokens {
  import opened Text

  /** The list without its empty strings, the others kept in order. */
  function DropEmpty(xs: seq<string>): (r: seq<string>)
    ensures |r| <= |xs|
    ensures forall k :: 0 <= k < |r| ==> r[k] != []
    ensures r == [] <==> forall k :: 0 <= k < |xs| ==> xs[k] == []
  {
    if xs == [] then []
    else (if xs[0] == [] then [] else [xs[0]]) + DropEmpty(xs[1..])
  }

  /** Exactly the non-empty strings of the list survive. */
  lemma {:induction false} DropEmptyMember(xs: seq<string>, t: string)
    ensures t in DropEmpty(xs) <==> t != [] && t in xs
  {
    if xs != [] {
      DropEmptyMember(xs[1..], t);
      assert xs == [xs[0]] + xs[1..];
    }
  }

  /**
   * The search form's tokeniser: one token per comma-separated piece, empty
   * pieces included, each stripped and case-folded.
   */
  function QueryTokens(raw: string): (r: seq<string>)
    ensures |r| == Count(raw, ',') + 1
    ensures forall k :: 0 <= k < |r| ==> r[k] == Lower(Strip(Split(raw, ',')[k]))
  {
    var pieces := Split(raw, ',');
    var stripped := StripAll(pieces);
    var r := LowerAll(stripped);
    forall k | 0 <= k < |r| ensures r[k] == Lower(Strip(pieces[k])) {
      assert stripped[k] == Strip(pieces[k]);
    }
    r
  }

  /** Every query token is already stripped and in lower case. */
  lemma QueryTokenNormal(raw: string, k: int)
    requires 0 <= k < |QueryTokens(raw)|
    ensures IsStripped(QueryTokens(raw)[k]) && NoUpper(QueryTokens(raw)[k])
  {
    LowerKeepsStripped(Strip(Split(raw, ',')[k]));
  }

  /**
   * The query tokens are read piece by piece from the left, a blank first
   * piece contributing an empty token rather than none.
   */
  lemma QueryTokensOfPiece(piece: string, rest: string)
    requires ',' !in piece
    ensures QueryTokens(piece + [','] + rest) == [Lower(Strip(piece))] + QueryTokens(rest)
  {
    SplitAfterPiece(piece, ',', rest);
    var ps := Split(rest, ',');
    assert ([piece] + ps)[1..] == ps;
    assert StripAll([piece] + ps) == [Strip(piece)] + StripAll(ps);
    assert ([Strip(piece)] + StripAll(ps))[1..] == StripAll(ps);
  }

  /** The upload form's tokeniser: the stripped, non-blank comma-separated pieces. */
  function UploadTokens(raw: string): (r: seq<string>)
    ensures |r| <= Count(raw, ',') + 1
    ensures forall k :: 0 <= k < |r| ==> r[k] != [] && IsStripped(r[k])
  {
    var ps := StripAll(Split(raw, ','));
    var r := DropEmpty(ps);
    forall k | 0 <= k < |r| ensures IsStripped(r[k]) {
      DropEmptyMember(ps, r[k]);
    }
    r
  }

  /** A string is an upload token exactly when it is a non-blank piece, stripped. */
  lemma UploadTokensMember(raw: string, t: string)
    ensures t in UploadTokens(raw) <==> t != [] && t in StripAll(Split(raw, ','))
  {
    DropEmptyMember(StripAll(Split(raw, ',')), t);
  }

  /**
   * The upload tokens of a field are read piece by piece from the left: a
   * first piece contributes its stripped form, unless blank, ahead of the
   * tokens of the rest of the field.
   */
  lemma UploadTokensOfPiece(piece: string, rest: string)
    requires ',' !in piece
    ensures UploadTokens(piece + [','] + rest)
         == (if Strip(piece) == [] then [] else [Strip(piece)]) + UploadTokens(rest)
  {
    SplitAfterPiece(piece, ',', rest);
    var ps := Split(rest, ',');
    assert StripAll([piece] + ps) == [Strip(piece)] + StripAll(ps) by {
      assert ([piece] + ps)[1..] == ps;
    }
    DropEmptyAppend([Strip(piece)], StripAll(ps));
  }

  /** Every piece consists of whitespace only. */
  predicate Blank(pieces: seq<string>) {
    forall k :: 0 <= k < |pieces| ==> AllSpace(pieces[k])
  }

  /** The upload tokeniser finds no symptom exactly when every piece is blank. */
  lemma UploadTokensEmpty(raw: string)
    ensures UploadTokens(raw) == [] <==> Blank(Split(raw, ','))
  {
    StrippedBlank(Split(raw, ','));
  }

  lemma StrippedBlank(ps: seq<string>)
    ensures DropEmpty(StripAll(ps)) == [] <==> Blank(ps)
  {
    var stripped := StripAll(ps);
    if DropEmpty(stripped) == [] {
      forall k | 0 <= k < |ps| ensures AllSpace(ps[k]) {
        StripBlank(ps[k]);
      }
    } else {
      var k :| 0 <= k < |ps| && stripped[k] != [];
      StripBlank(ps[k]);
    }
  }

  /** Dropping empty strings respects concatenation, so the kept ones stay in order. */
  lemma {:induction false} DropEmptyAppend(a: seq<string>, b: seq<string>)
    ensures DropEmpty(a + b) == DropEmpty(a) + DropEmpty(b)
  {
    if a != [] {
      DropEmptyAppend(a[1..], b);
      assert (a + b)[1..] == a[1..] + b;
    } else {
      assert a + b == b;
    }
  }

  lemma {:induction false} DropEmptyLower(xs: seq<string>)
    ensures DropEmpty(LowerAll(xs)) == LowerAll(DropEmpty(xs))
  {
    if xs != [] {
      DropEmptyLower(xs[1..]);
      assert Lower(xs[0]) == [] <==> xs[0] == [];
      var head := if xs[0] == [] then [] else [xs[0]];
      var rest := DropEmpty(xs[1..]);
      assert LowerAll(head + rest) == LowerAll(head) + LowerAll(rest);
    }
  }

  /**
   * The two tokenisers agree up to the empty tokens and the case: dropping
   * the empty query tokens leaves the case-folded upload tokens.
   */
  lemma QueryTokensWithoutEmpty(raw: string)
    ensures DropEmpty(QueryTokens(raw)) == LowerAll(UploadTokens(raw))
  {
    DropEmptyLower(StripAll(Split(raw, ',')));
  }

  /** The search tokeniser does not see the case of the field it reads. */
  lemma QueryTokensIgnoreCase(raw1: string, raw2: string)
    requires Lower(raw1) == Lower(raw2)
    ensures QueryTokens(raw1) == QueryTokens(raw2)
  {
    QueryTokensOfLower(raw1);
    QueryTokensOfLower(raw2);
  }

  lemma QueryTokensOfLower(raw: string)
    ensures QueryTokens(Lower(raw)) == QueryTokens(raw)
  {
    SplitLower(raw, ',');
    NormaliseLowered(Split(raw, ','));
  }

  /** Folding the pieces before they are stripped and folded changes no token. */
  lemma NormaliseLowered(ps: seq<string>)
    ensures LowerAll(StripAll(LowerAll(ps))) == LowerAll(StripAll(ps))
  {
    var a, b := LowerAll(StripAll(LowerAll(ps))), LowerAll(StripAll(ps));
    forall k | 0 <= k < |ps| ensures a[k] == b[k] {
      StripLower(ps[k]);
      LowerIdempotent(Strip(ps[k]));
    }
  }
}
