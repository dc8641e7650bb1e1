/** SearchRequest: the parameters of a similarity search, with the constructor's defaults. */
module SearchRequests {
  import opened Common

  /** A Java `int`. */
  type Int32 = x: int | -0x8000_0000 <= x < 0x8000_0000

  /** `text` and `vector` may be null; `vector` is the caller's own array, not a copy. */
  datatype SearchRequest = SearchRequest(
    text: Option<string>,
    vector: array?<real>,
    maxResults: Int32,
    minScore: real)

  /** The @Builder constructor: a missing maxResults becomes 1 and a missing minScore 0.0;
      supplied values are kept as they are, without any range check, and text and vector are
      stored as given. */
  function NewSearchRequest(text: Option<string>, vector: array?<real>,
                            maxResults: Option<Int32>, minScore: Option<real>): (r: SearchRequest)
    ensures r.text == text && r.vector == vector
    ensures maxResults == None ==> r.maxResults == 1
    ensures minScore == None ==> r.minScore == 0.0
    ensures forall n :: maxResults == Some(n) ==> r.maxResults == n
    ensures forall m :: minScore == Some(m) ==> r.minScore == m
  {
    SearchRequest(text, vector, maxResults.GetOr(1), minScore.GetOr(0.0))
  }
}
