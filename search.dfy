/**
 * The search filter of `GET /api/users`: an empty search matches every
 * record, otherwise a record matches when its name, email or address
 * contains the search text, compared case-insensitively.
 */
module Search {
  import opened Wrappers
  import opened Schema

  /** `pat` occurs in `text` starting at position `k`. */
  predicate OccursAt(text: string, pat: string, k: int) {
    0 <= k <= |text| - |pat| && text[k..k + |pat|] == pat
  }

  /** `pat` occurs in `text` at some position. */
  predicate Contains(text: string, pat: string) {
    exists k | 0 <= k <= |text| - |pat| :: OccursAt(text, pat, k)
  }

  /** A string with every character case-folded by `fold`. */
  function Folded(s: string, fold: char -> char): string {
    seq(|s|, k requires 0 <= k < |s| => fold(s[k]))
  }

  /** The `$regex` test with option "i" on one field, read as a literal substring. */
  predicate ContainsIgnoringCase(text: string, search: string, fold: char -> char) {
    Contains(Folded(text, fold), Folded(search, fold))
  }

  /** The filter: `{}` for an empty search, else the `$or` over name, email and address. */
  predicate Matches(u: User, search: string, fold: char -> char) {
    || search == []
    || ContainsIgnoringCase(u.name, search, fold)
    || ContainsIgnoringCase(u.email, search, fold)
    || (u.address.Some? && ContainsIgnoringCase(u.address.value, search, fold))
  }

  /** The records the filter selects, in their listing order. */
  function Filter(records: seq<User>, search: string, fold: char -> char): (r: seq<User>)
    ensures |r| <= |records|
    ensures forall u :: u in r <==> u in records && Matches(u, search, fold)
    ensures search == [] ==> r == records
  {
    if records == [] then []
    else
      var rest := Filter(records[..|records| - 1], search, fold);
      var last := records[|records| - 1];
      assert records == records[..|records| - 1] + [last];
      if Matches(last, search, fold) then rest + [last] else rest
  }

  /** A lone record is kept exactly when it matches. */
  lemma FilterSingle(u: User, search: string, fold: char -> char)
    ensures Filter([u], search, fold) == if Matches(u, search, fold) then [u] else []
  {
    assert [u][..0] == [];
  }

  /** Appending a record appends it to the filter's result exactly when it matches. */
  lemma FilterSnoc(front: seq<User>, last: User, search: string, fold: char -> char)
    ensures Filter(front + [last], search, fold)
         == Filter(front, search, fold) + (if Matches(last, search, fold) then [last] else [])
  {
    var s := front + [last];
    assert s[..|s| - 1] == front;
  }

  /** Filtering keeps the listing order: the filter of a concatenation is the concatenation of the filters. */
  lemma {:induction false} FilterConcat(a: seq<User>, b: seq<User>, search: string, fold: char -> char)
    ensures Filter(a + b, search, fold) == Filter(a, search, fold) + Filter(b, search, fold)
  {
    if b == [] {
      assert a + b == a;
    } else {
      var front, last := b[..|b| - 1], b[|b| - 1];
      assert b == front + [last];
      assert a + b == (a + front) + [last];
      FilterConcat(a, front, search, fold);
      FilterSnoc(a + front, last, search, fold);
      FilterSnoc(front, last, search, fold);
    }
  }

  /** A field that contains the search text verbatim contains it under any case folding. */
  lemma {:induction false} VerbatimOccurrenceMatches(text: string, search: string, fold: char -> char)
    requires Contains(text, search)
    ensures ContainsIgnoringCase(text, search, fold)
  {
    var k :| 0 <= k <= |text| - |search| && OccursAt(text, search, k);
    var ft, fs := Folded(text, fold), Folded(search, fold);
    assert |ft| == |text| && |fs| == |search|;
    assert ft[k..k + |fs|] == fs by {
      forall m | 0 <= m < |fs| ensures ft[k..k + |fs|][m] == fs[m] {
        assert text[k..k + |search|][m] == search[m];
      }
    }
    assert OccursAt(ft, fs, k);
  }

  /** Searching for two texts that fold to the same string selects the same records. */
  lemma SearchIgnoresCase(u: User, s1: string, s2: string, fold: char -> char)
    requires Folded(s1, fold) == Folded(s2, fold)
    ensures Matches(u, s1, fold) == Matches(u, s2, fold)
  {
  }

  /** A record without an address is matched only through its name or email. */
  lemma AbsentAddressNeverMatches(u: User, search: string, fold: char -> char)
    requires u.address.None? && search != []
    ensures Matches(u, search, fold) <==>
      ContainsIgnoringCase(u.name, search, fold) || ContainsIgnoringCase(u.email, search, fold)
  {
  }
}
