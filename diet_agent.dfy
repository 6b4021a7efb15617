/** The deterministic parts of `ai_pipeline/diet_agent.py`: the condition
    synonym table, the extraction of a fenced JSON block from the model's
    reply, and the test a parsed plan must pass. */
module DietAgent {
  import opened Options
  import opened Text

  /** Misspellings and variants of the three conditions the prompts know. */
  const ConditionSynonyms: map<string, string> := map[
    "diabetics" := "diabetes",
    "diabetic" := "diabetes",
    "hypertensions" := "hypertension",
    "high blood pressure" := "hypertension",
    "cholestrol" := "cholesterol",
    "high cholesterol" := "cholesterol"
  ]

  const CanonicalConditions: set<string> := {"diabetes", "hypertension", "cholesterol"}

  /** The synonyms lead to the three canonical names, none of which is itself
      a synonym. */
  lemma SynonymTable()
    ensures ConditionSynonyms.Values == CanonicalConditions
    ensures forall c :: c in CanonicalConditions ==> c !in ConditionSynonyms
    ensures forall c :: c in CanonicalConditions ==> IsLowerCase(c) && IsStripped(c)
  {
    assert ConditionSynonyms["diabetic"] == "diabetes";
    assert ConditionSynonyms["hypertensions"] == "hypertension";
    assert ConditionSynonyms["cholestrol"] == "cholesterol";
  }

  /** A whitespace-trimmed slice of lower-case text is lower case. */
  lemma StripKeepsLowerCase(s: string)
    requires IsLowerCase(s)
    ensures IsLowerCase(Strip(s))
  {
    StripTrims(s);
  }

  /** `normalize_condition`: lower-case, trim, then map a known variant to
      its canonical name and leave anything else as it is. */
  function NormalizeCondition(condition: string): (r: string)
    ensures IsLowerCase(r) && IsStripped(r)
    ensures r !in ConditionSynonyms
    ensures Strip(Lower(condition)) in ConditionSynonyms ==> r in CanonicalConditions
    ensures Strip(Lower(condition)) in ConditionSynonyms ==> r == ConditionSynonyms[Strip(Lower(condition))]
    ensures Strip(Lower(condition)) !in ConditionSynonyms ==> r == Strip(Lower(condition))
  {
    var c := Strip(Lower(condition));
    LowerIsLowerCase(condition);
    StripKeepsLowerCase(Lower(condition));
    SynonymTable();
    if c in ConditionSynonyms then ConditionSynonyms[c] else c
  }

  /** Normalising an already normalised condition changes nothing. */
  lemma NormalizeIdempotent(condition: string)
    ensures NormalizeCondition(NormalizeCondition(condition)) == NormalizeCondition(condition)
  {
    var r := NormalizeCondition(condition);
    LowerOfLowerCase(r);
    StripOfStripped(r);
  }

  /** Case and surrounding whitespace do not matter. */
  lemma NormalizeIgnoresCase(a: string, b: string)
    requires Strip(Lower(a)) == Strip(Lower(b))
    ensures NormalizeCondition(a) == NormalizeCondition(b)
  {
  }

  // --------------------------------------------------------- JSON fences

  const Opener: string := "```json\n"
  const Closer: string := "\n```"

  /** The JSON text taken from a reply: with `re.DOTALL`, the pattern
      ```` ```json\n(.*?)\n``` ```` matches from the first opener to the
      nearest closer after it, and the captured text is trimmed; without a
      match the whole (trimmed) reply is the JSON text. */
  function ExtractJsonText(response: string): (r: string)
    ensures IsStripped(r)
    ensures !Contains(Strip(response), Opener) ==> r == Strip(response)
  {
    var t := Strip(response);
    match IndexFrom(t, Opener, 0)
    case None => t
    case Some(o) =>
      match IndexFrom(t, Closer, o + |Opener|)
      case None => t
      case Some(c) => Strip(t[o + |Opener|..c])
  }

  /** The search starts at the first opener: when no closer follows it, no
      later opener has one either, so the pattern has no match at all. */
  lemma FirstOpenerDecides(t: string, o: nat)
    requires IndexFrom(t, Opener, 0) == Some(o)
    requires IndexFrom(t, Closer, o + |Opener|).None?
    ensures forall o', c :: OccursAt(t, Opener, o') && o' + |Opener| <= c ==> !OccursAt(t, Closer, c)
  {
  }

  /** With a first opener at `o` and a nearest closer after it at `c`, the
      JSON text is the trimmed text between the two. */
  lemma ExtractFenced(response: string, o: nat, c: nat)
    requires OccursAt(Strip(response), Opener, o)
    requires forall i :: 0 <= i < o ==> !OccursAt(Strip(response), Opener, i)
    requires o + |Opener| <= c && OccursAt(Strip(response), Closer, c)
    requires forall i :: o + |Opener| <= i < c ==> !OccursAt(Strip(response), Closer, i)
    ensures ExtractJsonText(response) == Strip(Strip(response)[o + |Opener|..c])
  {
    var t := Strip(response);
    IndexFromFinds(t, Opener, 0, o);
    IndexFromFinds(t, Closer, o + |Opener|, c);
  }

  /** With a first opener at `o` and no closer anywhere after it, the
      pattern does not match and the whole trimmed reply is the JSON text. */
  lemma ExtractUnclosed(response: string, o: nat)
    requires OccursAt(Strip(response), Opener, o)
    requires forall i :: 0 <= i < o ==> !OccursAt(Strip(response), Opener, i)
    requires forall c :: o + |Opener| <= c ==> !OccursAt(Strip(response), Closer, c)
    ensures ExtractJsonText(response) == Strip(response)
  {
    var t := Strip(response);
    IndexFromFinds(t, Opener, 0, o);
    assert IndexFrom(t, Closer, o + |Opener|).None?;
  }

  /** A reply that is exactly one fenced block yields the trimmed block
      body, as long as the body contains no backtick. */
  lemma FencedBody(body: string)
    requires forall i :: 0 <= i < |body| ==> body[i] != '`'
    ensures ExtractJsonText(Opener + body + Closer) == Strip(body)
  {
    var t := Opener + body + Closer;
    assert t[0] == '`' && t[|t| - 1] == '`';
    StripOfStripped(t);
    assert OccursAt(t, Opener, 0) by { assert t[..|Opener|] == Opener; }
    var c := |Opener| + |body|;
    assert OccursAt(t, Closer, c) by { assert t[c..c + |Closer|] == Closer; }
    NoCloserInBody(body);
    ExtractFenced(t, 0, c);
    assert t[|Opener|..c] == body;
  }

  /** Inside a fenced block with a backtick-free body, the only closer is
      the one at the end. */
  lemma NoCloserInBody(body: string)
    requires forall i :: 0 <= i < |body| ==> body[i] != '`'
    ensures forall i :: |Opener| <= i < |Opener| + |body| ==> !OccursAt(Opener + body + Closer, Closer, i)
  {
    var t := Opener + body + Closer;
    var c := |Opener| + |body|;
    forall i | |Opener| <= i < c
      ensures !OccursAt(t, Closer, i)
    {
      if i + 1 < c {
        assert t[i + 1] == body[i + 1 - |Opener|];
      } else {
        assert t[i + 1] == '\n';
      }
    }
  }

  // ------------------------------------------------------------- the plan

  /** A decoded JSON value; decoding itself is not modelled. */
  datatype Json =
    | Null
    | Boolean(b: bool)
    | Number(n: real)
    | Text(s: string)
    | Array(items: seq<Json>)
    | Object(members: map<string, Json>)

  /** A plan must be an object with both a "days" and a "notes" member. */
  predicate HasPlanShape(plan: Json) {
    plan.Object? && "days" in plan.members && "notes" in plan.members
  }

  /** What one attempt of the generation loop makes of a reply. */
  datatype Attempt =
    | EmptyResponse
    | InvalidFormat
    | InvalidStructure
    | Plan(plan: Json)

  /** One pass of the loop body: an empty reply, text that does not decode
      (`decode` stands for `json.loads`), a value without the plan shape, or
      the plan. */
  function CheckReply(response: string, decode: string -> Option<Json>): (a: Attempt)
    ensures a.Plan? ==> HasPlanShape(a.plan)
    ensures a.Plan? ==> decode(ExtractJsonText(response)) == Some(a.plan)
    ensures a == EmptyResponse <==> Strip(response) == []
    ensures a == InvalidFormat <==> Strip(response) != [] && decode(ExtractJsonText(response)).None?
    ensures a == InvalidStructure <==>
      Strip(response) != [] && decode(ExtractJsonText(response)).Some?
      && !HasPlanShape(decode(ExtractJsonText(response)).value)
  {
    if Strip(response) == [] then EmptyResponse
    else match decode(ExtractJsonText(response))
      case None => InvalidFormat
      case Some(plan) => if HasPlanShape(plan) then Plan(plan) else InvalidStructure
  }

  /** The error object returned when the last attempt fails this way. */
  function AttemptError(a: Attempt): (msg: string)
    requires !a.Plan?
  {
    match a
    case EmptyResponse => "Empty response from Gemini"
    case InvalidFormat => "Invalid diet plan format"
    case InvalidStructure => "Invalid diet plan structure"
  }

  /** The three failures are reported with three different messages. */
  lemma AttemptErrorsDistinct(a: Attempt, b: Attempt)
    requires !a.Plan? && !b.Plan?
    ensures AttemptError(a) == AttemptError(b) <==> a == b
  {
  }

  /** A decoded object is accepted exactly when it has both members,
      whatever else it holds. */
  lemma PlanAcceptance(response: string, decode: string -> Option<Json>)
    requires Strip(response) != []
    requires decode(ExtractJsonText(response)).Some?
    ensures CheckReply(response, decode).Plan? <==> HasPlanShape(decode(ExtractJsonText(response)).value)
  {
  }
}
