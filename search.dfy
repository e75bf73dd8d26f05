/** The search box of the programme, the dashboard and the booking history:
    an empty query shows everything, otherwise an entry is shown when its
    movie name, lower-cased, contains the lower-cased query. */
module Search {
  import opened JavaLang

  /** The filter predicate each search installs. */
  predicate Matches(query: string, name: string) {
    query == [] || Contains(ToLower(name), ToLower(query))
  }

  /** A non-empty query matches exactly when its lower-case form occurs
      somewhere in the lower-cased name. */
  lemma MatchesIff(query: string, name: string)
    requires query != []
    ensures Matches(query, name) <==> exists i :: OccursAt(ToLower(name), ToLower(query), i)
  {
    ContainsIff(ToLower(name), ToLower(query));
  }

  lemma ToLowerConcat(a: string, b: string)
    ensures ToLower(a + b) == ToLower(a) + ToLower(b)
  {
  }

  /** A name that holds the query as a piece is always found. */
  lemma MatchesPiece(before: string, query: string, after: string)
    ensures Matches(query, before + query + after)
  {
    if query != [] {
      var name := before + query + after;
      ToLowerConcat(before + query, after);
      ToLowerConcat(before, query);
      var low := ToLower(name);
      assert low == ToLower(before) + ToLower(query) + ToLower(after);
      assert low[|before|..|before| + |query|] == ToLower(query);
      assert OccursAt(low, ToLower(query), |before|);
      MatchesIff(query, name);
    }
  }

  /** The case of the query and of the name play no part. */
  lemma MatchesIgnoresCase(query: string, name: string)
    ensures Matches(ToLower(query), name) == Matches(query, name)
    ensures Matches(query, ToLower(name)) == Matches(query, name)
  {
    ToLowerIdempotent(query);
    ToLowerIdempotent(name);
  }
}
