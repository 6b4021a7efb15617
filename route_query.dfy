/** `ai_pipeline/route_query.py`: which agent answers a free-text query. */
module RouteQuery {
  import opened Options
  import opened Text

  /** The three agents a query can go to. */
  datatype Route = DietAgent | PrescriptionAgent | QaAgent

  const DietKeywords: seq<string> := ["diet", "nutrition", "food", "meal"]
  const ReportKeywords: seq<string> := ["report", "medical", "prescription", "lab", "x-ray", "scan"]

  /** Returned whenever routing or the chosen agent raises. */
  const Apology: string := "Sorry, I couldn't process your request. Please try again."

  /** The routing decision: diet words first, then report words, else QA;
      all tests are substring tests on the lower-cased query. */
  function RouteOf(query: string): (r: Route)
    ensures r == DietAgent <==> ContainsAny(Lower(query), DietKeywords)
    ensures r == PrescriptionAgent <==>
      !ContainsAny(Lower(query), DietKeywords) && ContainsAny(Lower(query), ReportKeywords)
  {
    var q := Lower(query);
    if ContainsAny(q, DietKeywords) then DietAgent
    else if ContainsAny(q, ReportKeywords) then PrescriptionAgent
    else QaAgent
  }

  /** Queries that differ only in letter case go to the same agent. */
  lemma RouteIgnoresCase(a: string, b: string)
    requires Lower(a) == Lower(b)
    ensures RouteOf(a) == RouteOf(b)
  {
  }

  /** Lower-casing distributes over concatenation. */
  lemma LowerAppend(a: string, b: string)
    ensures Lower(a + b) == Lower(a) + Lower(b)
  {
  }

  /** A keyword anywhere in the query, even inside another word, counts. */
  lemma {:induction false} KeywordInside(pre: string, word: string, post: string)
    requires IsLowerCase(word)
    ensures Contains(Lower(pre + word + post), word)
  {
    LowerAppend(pre + word, post);
    LowerAppend(pre, word);
    LowerOfLowerCase(word);
    var q := Lower(pre) + word + Lower(post);
    assert q[|pre|..|pre| + |word|] == word;
    ContainsWithin(q, word, |pre|);
  }

  /** A diet word wins over any report word: "seafood" goes to the diet
      agent, and so does "my lab report about my diet". */
  lemma DietWordWins(pre: string, k: nat, post: string)
    requires k < |DietKeywords|
    ensures RouteOf(pre + DietKeywords[k] + post) == DietAgent
  {
    KeywordInside(pre, DietKeywords[k], post);
  }

  /** Without a diet word, a report word sends the query to the
      prescription agent: "Label" contains "lab". */
  lemma ReportWordRoutes(pre: string, k: nat, post: string)
    requires k < |ReportKeywords|
    requires !ContainsAny(Lower(pre + ReportKeywords[k] + post), DietKeywords)
    ensures RouteOf(pre + ReportKeywords[k] + post) == PrescriptionAgent
  {
    KeywordInside(pre, ReportKeywords[k], post);
  }

  /** "seafood" is routed to the diet agent. */
  lemma SeafoodExample()
    ensures RouteOf("seafood") == DietAgent
  {
    assert "seafood" == "sea" + DietKeywords[2] + "";
    DietWordWins("sea", 2, "");
  }

  /** A word whose first letter does not occur in `s` does not occur in `s`. */
  lemma FirstCharAbsent(s: string, w: string)
    requires |w| > 0 && w[0] !in s
    ensures !Contains(s, w)
  {
    forall i
      ensures !OccursAt(s, w, i)
    {
      if 0 <= i && i + |w| <= |s| {
        assert s[i..i + |w|][0] == s[i];
      }
    }
  }

  /** "Label" is routed to the prescription agent. */
  lemma LabelExample()
    ensures RouteOf("Label") == PrescriptionAgent
  {
    assert Lower("Label") == "label";
    forall k | 0 <= k < |DietKeywords|
      ensures !Contains("label", DietKeywords[k])
    {
      assert DietKeywords[k][0] !in "label";
      FirstCharAbsent("label", DietKeywords[k]);
    }
    assert "Label" == "" + "Lab" + "el";
    assert Lower("Lab") == ReportKeywords[3];
    ContainsWithin("label", ReportKeywords[3], 0);
  }

  /** The reply of `route_query`: the chosen agent's answer, or the apology
      when routing or the agent raises (`agents` returns `None` then). */
  function Respond(query: string, agents: Route -> Option<string>): (reply: string)
    ensures agents(RouteOf(query)).Some? ==> reply == agents(RouteOf(query)).value
    ensures agents(RouteOf(query)).None? ==> reply == Apology
  {
    match agents(RouteOf(query))
    case Some(answer) => answer
    case None => Apology
  }
}
