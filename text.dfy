/**
 * The three string operations the handlers use on form text: `strip()`,
 * `lower()` and `split(",")`, restricted to ASCII.
 */
module Text {

  /** The ASCII characters for which a string's `isspace()` holds. */
  predicate IsSpace(c: char) {
    c == ' ' || 9 <= c as int <= 13 || 28 <= c as int <= 31
  }

  predicate IsUpper(c: char) {
    'A' <= c <= 'Z'
  }

  predicate AllSpace(s: string) {
    forall k :: 0 <= k < |s| ==> IsSpace(s[k])
  }

  /** Neither end of `s` is whitespace: what `strip()` leaves. */
  predicate IsStripped(s: string) {
    s == [] || (!IsSpace(s[0]) && !IsSpace(s[|s| - 1]))
  }

  predicate NoUpper(s: string) {
    forall k :: 0 <= k < |s| ==> !IsUpper(s[k])
  }

  /** ASCII case folding of one character. */
  function ToLower(c: char): (d: char)
    ensures !IsUpper(d)
    ensures IsUpper(c) || d == c
    ensures IsSpace(d) == IsSpace(c)
  {
    if IsUpper(c) then (c as int + ('a' as int - 'A' as int)) as char else c
  }

  /** `s.lower()`: every upper-case letter replaced by its lower-case one. */
  function Lower(s: string): (r: string)
    ensures |r| == |s| && NoUpper(r)
    ensures forall k :: 0 <= k < |s| ==> r[k] == ToLower(s[k])
  {
    if s == [] then [] else [ToLower(s[0])] + Lower(s[1..])
  }

  /** Case folding keeps whitespace where it is, so a stripped string stays stripped. */
  lemma LowerKeepsStripped(s: string)
    ensures IsStripped(Lower(s)) == IsStripped(s)
  {
  }

  /** Every string of the list case-folded, as `[s.lower() for s in xs]`. */
  function LowerAll(xs: seq<string>): (r: seq<string>)
    ensures |r| == |xs|
    ensures forall k :: 0 <= k < |xs| ==> r[k] == Lower(xs[k])
  {
    if xs == [] then [] else [Lower(xs[0])] + LowerAll(xs[1..])
  }

  /** Leading whitespace removed: a suffix of `s` that does not start with whitespace. */
  function TrimStart(s: string): (r: string)
    ensures |r| <= |s| && r == s[|s| - |r|..]
    ensures r == [] || !IsSpace(r[0])
  {
    if s != [] && IsSpace(s[0]) then TrimStart(s[1..]) else s
  }

  /** Trailing whitespace removed: a prefix of `s` that does not end with whitespace. */
  function TrimEnd(s: string): (r: string)
    ensures |r| <= |s| && r == s[..|r|]
    ensures r == [] || !IsSpace(r[|r| - 1])
  {
    if s != [] && IsSpace(s[|s| - 1]) then TrimEnd(s[..|s| - 1]) else s
  }

  /** Only whitespace is cut off the front. */
  lemma {:induction false} TrimStartSpaces(s: string)
    ensures AllSpace(s[..|s| - |TrimStart(s)|])
  {
    if s != [] && IsSpace(s[0]) {
      TrimStartSpaces(s[1..]);
      var n := |s| - |TrimStart(s)|;
      assert forall k :: 1 <= k < n ==> s[..n][k] == s[1..][..n - 1][k - 1];
    }
  }

  /** Only whitespace is cut off the back. */
  lemma {:induction false} TrimEndSpaces(s: string)
    ensures AllSpace(s[|TrimEnd(s)|..])
  {
    if s != [] && IsSpace(s[|s| - 1]) {
      TrimEndSpaces(s[..|s| - 1]);
      var n := |TrimEnd(s)|;
      assert forall k :: 0 <= k < |s| - 1 - n ==> s[n..][k] == s[..|s| - 1][n..][k];
    }
  }

  /** `s.strip()`: `s` with its whitespace ends cut off. */
  function Strip(s: string): (r: string)
    ensures |r| <= |s| && IsStripped(r)
  {
    TrimEnd(TrimStart(s))
  }

  /** Stripping a string that is already stripped changes nothing. */
  lemma StripStripped(s: string)
    requires IsStripped(s)
    ensures Strip(s) == s
  {
  }

  /** Every string of the list stripped, as `[s.strip() for s in xs]`. */
  function StripAll(xs: seq<string>): (r: seq<string>)
    ensures |r| == |xs|
    ensures forall k :: 0 <= k < |xs| ==> r[k] == Strip(xs[k])
  {
    if xs == [] then [] else [Strip(xs[0])] + StripAll(xs[1..])
  }

  /** What `Strip` removes is whitespace, from the two ends only. */
  lemma StripIsSlice(s: string)
    ensures exists i, j :: 0 <= i <= j <= |s| && Strip(s) == s[i..j] && AllSpace(s[..i]) && AllSpace(s[j..])
  {
    var t := TrimStart(s);
    var i := |s| - |t|;
    var j := i + |TrimEnd(t)|;
    TrimStartSpaces(s);
    TrimEndSpaces(t);
    assert Strip(s) == s[i..j];
    assert s[j..] == t[|TrimEnd(t)|..];
  }

  /** A piece strips to nothing exactly when it is blank. */
  lemma StripBlank(s: string)
    ensures Strip(s) == [] <==> AllSpace(s)
  {
    var t := TrimStart(s);
    var i := |s| - |t|;
    if Strip(s) == [] {
      TrimStartSpaces(s);
      TrimEndSpaces(t);
      assert t == [];
      assert s[..i] == s;
    }
  }

  /** The number of occurrences of `c` in `s`. */
  function Count(s: string, c: char): nat {
    if s == [] then 0 else (if s[0] == c then 1 else 0) + Count(s[1..], c)
  }

  /** The pieces glued back together with `sep` between neighbours. */
  function Join(pieces: seq<string>, sep: char): string {
    if pieces == [] then []
    else if |pieces| == 1 then pieces[0]
    else pieces[0] + [sep] + Join(pieces[1..], sep)
  }

  /**
   * `s.split(sep)`: the maximal runs of `s` between separators, empty runs
   * included, so there is always one more piece than there are separators.
   */
  function Split(s: string, sep: char): (r: seq<string>)
    ensures |r| == Count(s, sep) + 1
    ensures forall k :: 0 <= k < |r| ==> sep !in r[k]
  {
    if s == [] then [[]]
    else
      var rest := Split(s[1..], sep);
      if s[0] == sep then [[]] + rest
      else [[s[0]] + rest[0]] + rest[1..]
  }

  /** Gluing the pieces back together with the separator gives the original string. */
  lemma {:induction false} SplitJoin(s: string, sep: char)
    ensures Join(Split(s, sep), sep) == s
  {
    if s != [] {
      SplitJoin(s[1..], sep);
      var rest := Split(s[1..], sep);
      assert |rest| > 1 ==> Join(rest, sep) == rest[0] + [sep] + Join(rest[1..], sep);
      assert s == [s[0]] + s[1..];
    }
  }

  lemma {:induction false} SplitNoSeparator(s: string, sep: char)
    requires sep !in s
    ensures Split(s, sep) == [s]
  {
    if s != [] {
      SplitNoSeparator(s[1..], sep);
      assert [s[0]] + s[1..] == s;
    }
  }

  lemma {:induction false} SplitAfterPiece(a: string, sep: char, b: string)
    requires sep !in a
    ensures Split(a + [sep] + b, sep) == [a] + Split(b, sep)
  {
    if a != [] {
      SplitAfterPiece(a[1..], sep, b);
      assert (a + [sep] + b)[1..] == a[1..] + [sep] + b;
      assert [a[0]] + a[1..] == a;
    } else {
      assert (a + [sep] + b)[1..] == b;
    }
  }

  /**
   * `Split` is the only way to cut `s` into separator-free pieces that join
   * back to `s`: its postcondition and `SplitJoin` determine it.
   */
  lemma {:induction false} SplitUnique(pieces: seq<string>, sep: char, s: string)
    requires |pieces| >= 1
    requires forall k :: 0 <= k < |pieces| ==> sep !in pieces[k]
    requires Join(pieces, sep) == s
    ensures Split(s, sep) == pieces
  {
    if |pieces| == 1 {
      SplitNoSeparator(s, sep);
    } else {
      SplitUnique(pieces[1..], sep, Join(pieces[1..], sep));
      SplitAfterPiece(pieces[0], sep, Join(pieces[1..], sep));
      assert pieces == [pieces[0]] + pieces[1..];
    }
  }

  /** Case folding never turns a character into a non-letter separator, or one into another character. */
  lemma {:induction false} SplitLower(s: string, sep: char)
    requires !IsUpper(sep) && !('a' <= sep <= 'z')
    ensures var ps := Split(s, sep);
      Split(Lower(s), sep) == LowerAll(ps)
  {
    if s != [] {
      SplitLower(s[1..], sep);
      assert Lower(s)[1..] == Lower(s[1..]);
      assert ToLower(s[0]) == sep <==> s[0] == sep;
      var rest := Split(s[1..], sep);
      if s[0] != sep {
        assert Lower([s[0]] + rest[0]) == [ToLower(s[0])] + Lower(rest[0]);
      }
    }
  }

  lemma {:induction false} TrimStartLower(s: string)
    ensures TrimStart(Lower(s)) == Lower(TrimStart(s))
  {
    if s != [] {
      var l := Lower(s);
      assert l[0] == ToLower(s[0]);
      if IsSpace(s[0]) {
        TrimStartLower(s[1..]);
        assert l[1..] == Lower(s[1..]);
      }
    }
  }

  lemma LowerPrefix(s: string, n: nat)
    requires n <= |s|
    ensures Lower(s[..n]) == Lower(s)[..n]
  {
    var l := Lower(s);
    assert forall k :: 0 <= k < n ==> l[..n][k] == ToLower(s[..n][k]);
  }

  lemma {:induction false} TrimEndLower(s: string)
    ensures TrimEnd(Lower(s)) == Lower(TrimEnd(s))
  {
    if s != [] {
      var l := Lower(s);
      assert l[|s| - 1] == ToLower(s[|s| - 1]);
      if IsSpace(s[|s| - 1]) {
        TrimEndLower(s[..|s| - 1]);
        LowerPrefix(s, |s| - 1);
      }
    }
  }

  /** Case folding and trimming commute. */
  lemma StripLower(s: string)
    ensures Strip(Lower(s)) == Lower(Strip(s))
  {
    TrimStartLower(s);
    TrimEndLower(TrimStart(s));
  }

  lemma {:induction false} LowerIdempotent(s: string)
    ensures Lower(Lower(s)) == Lower(s)
  {
    assert forall k :: 0 <= k < |s| ==> ToLower(Lower(s)[k]) == Lower(s)[k];
  }
}
