/** `analyze_health_indicators`: five lab-value patterns are searched for in
    a free-text report, each found value fills its field of a six-field
    record, and each filled field may raise one graded condition flag. */
module PredictionAgent {
  import opened Options
  import opened Text
  import opened Numerals
  import opened Regex

  // ------------------------------------------------------------- patterns

  /** `(?i)blood\s*(sugar|glucose)\s*[:=]\s*(\d+\.?\d*)` */
  const SugarPattern: seq<Token> :=
    [Word("blood"), Spaces, Either("sugar", "glucose"), Spaces, OneOf(":="), Spaces, Number]

  /** `(?i)blood\s*pressure\s*[:=]\s*(\d+)/(\d+)` */
  const PressurePattern: seq<Token> :=
    [Word("blood"), Spaces, Word("pressure"), Spaces, OneOf(":="), Spaces, Digits, Lit('/'), Digits]

  /** `(?i)cholesterol\s*[:=]\s*(\d+\.?\d*)` */
  const CholesterolPattern: seq<Token> := [Word("cholesterol"), Spaces, OneOf(":="), Spaces, Number]

  /** `(?i)creatinine\s*[:=]\s*(\d+\.?\d*)` */
  const CreatininePattern: seq<Token> := [Word("creatinine"), Spaces, OneOf(":="), Spaces, Number]

  /** `(?i)bmi\s*[:=]\s*(\d+\.?\d*)` */
  const BmiPattern: seq<Token> := [Word("bmi"), Spaces, OneOf(":="), Spaces, Number]

  /** Whitespace is never the start of a letter, a separator or a digit,
      and a digit is never a `/`: the facts that keep the patterns from
      needing backtracking. */
  lemma SpacesThenNonSpace(t: Token)
    requires t.Either? || t.Word? || t.OneOf? || t.Number? || t.Digits?
    requires t.Either? ==> |t.a| > 0 && |t.b| > 0 && IsLetter(t.a[0]) && IsLetter(t.b[0])
    requires t.Word? ==> |t.w| > 0 && IsLetter(t.w[0])
    requires t.OneOf? ==> t.cs == ":="
    ensures Follows(Spaces, t)
  {
    forall c | IsSpace(c) ensures !TokenStartsWith(t, c) {
      assert ToLower(c) == c;
    }
  }

  /** `\s*[:=]\s*(\d+\.?\d*)`, the tail every number pattern ends with. */
  lemma NumberTailSeparated()
    ensures Separated([Spaces, OneOf(":="), Spaces, Number])
    ensures CaptureTokens([Spaces, OneOf(":="), Spaces, Number]) == [Number]
  {
    SeparatedCons(Number, []);
    assert [Number] + [] == [Number];
    SpacesThenNonSpace(Number);
    SeparatedCons(Spaces, [Number]);
    SeparatedCons(OneOf(":="), [Spaces, Number]);
    SpacesThenNonSpace(OneOf(":="));
    SeparatedCons(Spaces, [OneOf(":="), Spaces, Number]);
  }

  /** Each pattern's neighbouring tokens never compete for a character. */
  lemma SugarPatternSeparated()
    ensures Separated(SugarPattern) && CaptureTokens(SugarPattern) == [Either("sugar", "glucose"), Number]
  {
    var tail := [Spaces, OneOf(":="), Spaces, Number];
    NumberTailSeparated();
    SeparatedCons(Either("sugar", "glucose"), tail);
    SpacesThenNonSpace(Either("sugar", "glucose"));
    SeparatedCons(Spaces, [Either("sugar", "glucose")] + tail);
    SeparatedCons(Word("blood"), [Spaces, Either("sugar", "glucose")] + tail);
    assert [Word("blood")] + ([Spaces, Either("sugar", "glucose")] + tail) == SugarPattern;
  }

  /** `(\d+)/(\d+)` */
  lemma FractionSeparated()
    ensures Separated([Digits, Lit('/'), Digits])
    ensures CaptureTokens([Digits, Lit('/'), Digits]) == [Digits, Digits]
  {
    SeparatedCons(Digits, []);
    assert [Digits] + [] == [Digits];
    SeparatedCons(Lit('/'), [Digits]);
    assert [Lit('/')] + [Digits] == [Lit('/'), Digits];
    assert Follows(Digits, Lit('/'));
    SeparatedCons(Digits, [Lit('/'), Digits]);
    assert [Digits] + [Lit('/'), Digits] == [Digits, Lit('/'), Digits];
  }

  /** `\s*[:=]\s*(\d+)/(\d+)` */
  lemma PressureTailSeparated()
    ensures Separated([Spaces, OneOf(":="), Spaces, Digits, Lit('/'), Digits])
    ensures CaptureTokens([Spaces, OneOf(":="), Spaces, Digits, Lit('/'), Digits]) == [Digits, Digits]
  {
    var f := [Digits, Lit('/'), Digits];
    FractionSeparated();
    SpacesThenNonSpace(Digits);
    SeparatedCons(Spaces, f);
    assert [Spaces] + f == [Spaces, Digits, Lit('/'), Digits];
    SeparatedCons(OneOf(":="), [Spaces] + f);
    assert [OneOf(":=")] + ([Spaces] + f) == [OneOf(":="), Spaces, Digits, Lit('/'), Digits];
    SpacesThenNonSpace(OneOf(":="));
    SeparatedCons(Spaces, [OneOf(":=")] + ([Spaces] + f));
    assert [Spaces] + ([OneOf(":=")] + ([Spaces] + f)) == [Spaces, OneOf(":="), Spaces, Digits, Lit('/'), Digits];
  }

  lemma PressurePatternSeparated()
    ensures Separated(PressurePattern) && CaptureTokens(PressurePattern) == [Digits, Digits]
  {
    var tail := [Spaces, OneOf(":="), Spaces, Digits, Lit('/'), Digits];
    PressureTailSeparated();
    SeparatedCons(Word("pressure"), tail);
    SpacesThenNonSpace(Word("pressure"));
    SeparatedCons(Spaces, [Word("pressure")] + tail);
    SeparatedCons(Word("blood"), [Spaces, Word("pressure")] + tail);
    assert [Word("blood")] + ([Spaces, Word("pressure")] + tail) == PressurePattern;
  }

  /** The shape shared by the cholesterol, creatinine and BMI patterns. */
  lemma LabPatternSeparated(w: string)
    requires |w| > 0 && IsLetter(w[0])
    ensures var p := [Word(w), Spaces, OneOf(":="), Spaces, Number];
      Separated(p) && CaptureTokens(p) == [Number]
  {
    NumberTailSeparated();
    SeparatedCons(Word(w), [Spaces, OneOf(":="), Spaces, Number]);
    assert [Word(w)] + [Spaces, OneOf(":="), Spaces, Number] == [Word(w), Spaces, OneOf(":="), Spaces, Number];
  }

  /** None of the five patterns needs backtracking. */
  lemma PatternsSeparated()
    ensures Separated(SugarPattern) && Separated(PressurePattern) && Separated(CholesterolPattern)
    ensures Separated(CreatininePattern) && Separated(BmiPattern)
  {
    SugarPatternSeparated();
    PressurePatternSeparated();
    LabPatternSeparated("cholesterol");
    LabPatternSeparated("creatinine");
    LabPatternSeparated("bmi");
  }

  /** The groups of the five patterns: the number is group 2 of the sugar
      pattern, both groups of the pressure pattern are digit runs, and the
      number is group 1 of the other three. */
  lemma PatternGroups()
    ensures |CaptureTokens(SugarPattern)| == 2 && CaptureTokens(SugarPattern)[1] == Number
    ensures |CaptureTokens(PressurePattern)| == 2
    ensures CaptureTokens(PressurePattern)[0] == Digits && CaptureTokens(PressurePattern)[1] == Digits
    ensures |CaptureTokens(CholesterolPattern)| == 1 && CaptureTokens(CholesterolPattern)[0] == Number
    ensures |CaptureTokens(CreatininePattern)| == 1 && CaptureTokens(CreatininePattern)[0] == Number
    ensures |CaptureTokens(BmiPattern)| == 1 && CaptureTokens(BmiPattern)[0] == Number
  {
    SugarPatternSeparated();
    PressurePatternSeparated();
    LabPatternSeparated("cholesterol");
    LabPatternSeparated("creatinine");
    LabPatternSeparated("bmi");
  }

  // ---------------------------------------------------------- the record

  /** The six optional fields of the returned `indicators` dict. */
  datatype Indicators = Indicators(
    bloodSugar: Option<real>,
    bpSystolic: Option<nat>,
    bpDiastolic: Option<nat>,
    cholesterol: Option<real>,
    creatinine: Option<real>,
    bmi: Option<real>)

  const NoIndicators := Indicators(None, None, None, None, None, None)

  datatype Likelihood = High | Moderate

  /** The eight condition names the analysis can report. */
  datatype Disease =
    | Diabetes | PreDiabetes | Hypertension | PreHypertension
    | HighCholesterol | KidneyIssue | Obesity | Overweight

  /** The `"name"` text of each condition. */
  function NameOf(d: Disease): string {
    match d
    case Diabetes => "Diabetes"
    case PreDiabetes => "Pre-diabetes"
    case Hypertension => "Hypertension"
    case PreHypertension => "Pre-hypertension"
    case HighCholesterol => "High Cholesterol"
    case KidneyIssue => "Kidney Issue"
    case Obesity => "Obesity"
    case Overweight => "Overweight"
  }

  /** `"likelihood"` of a condition is `"High"` or `"Moderate"`. */
  function LikelihoodName(l: Likelihood): string {
    match l
    case High => "High"
    case Moderate => "Moderate"
  }

  /** One entry `{"name": NameOf(name), "likelihood": LikelihoodName(likelihood)}`
      of the condition list. */
  datatype Condition = Condition(name: Disease, likelihood: Likelihood)

  /** Group `g + 1` of what `re.search(p, text)` finds, when it finds
      something, is the text `\d+\.?\d*` matches. */
  predicate DecimalGroupAt(p: seq<Token>, g: nat, text: string) {
    SearchGroups(p, text).Some? ==>
      g < |SearchGroups(p, text).value| && IsDecimalText(SearchGroups(p, text).value[g])
  }

  /** Group `g + 1` of what `re.search(p, text)` finds, when it finds
      something, is the text `\d+` matches. */
  predicate DigitsGroupAt(p: seq<Token>, g: nat, text: string) {
    SearchGroups(p, text).Some? ==>
      g < |SearchGroups(p, text).value| && |SearchGroups(p, text).value[g]| > 0
      && AllDigits(SearchGroups(p, text).value[g])
  }

  /** What the five patterns capture, whatever the text. */
  lemma GroupsTyped(text: string)
    ensures DecimalGroupAt(SugarPattern, 1, text)
    ensures DigitsGroupAt(PressurePattern, 0, text) && DigitsGroupAt(PressurePattern, 1, text)
    ensures DecimalGroupAt(CholesterolPattern, 0, text)
    ensures DecimalGroupAt(CreatininePattern, 0, text)
    ensures DecimalGroupAt(BmiPattern, 0, text)
  {
    PatternGroups();
    SearchGroupsTyped(SugarPattern, text);
    SearchGroupsTyped(PressurePattern, text);
    SearchGroupsTyped(CholesterolPattern, text);
    SearchGroupsTyped(CreatininePattern, text);
    SearchGroupsTyped(BmiPattern, text);
  }

  /** `float(m.group(g + 1))` for the leftmost match `m` of `p`. */
  function DecimalGroup(p: seq<Token>, g: nat, text: string): (r: Option<real>)
    requires DecimalGroupAt(p, g, text)
    ensures r.Some? <==> SearchGroups(p, text).Some?
  {
    match SearchGroups(p, text)
    case None => None
    case Some(groups) => Some(DecimalValue(groups[g]))
  }

  /** `int(m.group(g + 1))` for the leftmost match `m` of `p`. */
  function DigitsGroup(p: seq<Token>, g: nat, text: string): (r: Option<nat>)
    requires DigitsGroupAt(p, g, text)
    ensures r.Some? <==> SearchGroups(p, text).Some?
  {
    match SearchGroups(p, text)
    case None => None
    case Some(groups) => Some(DigitsValue(groups[g]))
  }

  /** What the five searches put into the record. */
  function Readings(text: string): (ind: Indicators)
  {
    GroupsTyped(text);
    Indicators(
      DecimalGroup(SugarPattern, 1, text),
      DigitsGroup(PressurePattern, 0, text),
      DigitsGroup(PressurePattern, 1, text),
      DecimalGroup(CholesterolPattern, 0, text),
      DecimalGroup(CreatininePattern, 0, text),
      DecimalGroup(BmiPattern, 0, text))
  }

  /** Systolic and diastolic readings are set together or not at all. */
  lemma PressurePaired(text: string)
    ensures Readings(text).bpSystolic.Some? <==> Readings(text).bpDiastolic.Some?
  {
  }

  /** The value a field gets is the group text of the match `re.search`
      returns, and the field stays `None` exactly when its pattern matches
      nowhere in the text. */
  lemma DecimalGroupMeaning(p: seq<Token>, g: nat, text: string)
    requires Separated(p) && g < |CaptureTokens(p)| && CaptureTokens(p)[g] == Number
    requires DecimalGroupAt(p, g, text)
    ensures DecimalGroup(p, g, text).None? <==> forall k: nat :: k <= |text| ==> !MatchesAt(p, text, k)
    ensures DecimalGroup(p, g, text).Some? ==>
      exists start: nat, e: nat, caps ::
        && IsLeftmostLongest(p, text, start, e, caps)
        && g < |caps| && IsDecimalText(caps[g])
        && DecimalGroup(p, g, text).value == DecimalValue(caps[g])
  {
    SearchFindsLeftmostLongest(p, text);
    SearchGroupsTyped(p, text);
    if Search(p, text).Some? {
      var f := Search(p, text).value;
      assert IsLeftmostLongest(p, text, f.start, f.m.end, f.m.groups);
    }
  }

  /** The same for the two `(\d+)` groups of the blood-pressure pattern. */
  lemma DigitsGroupMeaning(p: seq<Token>, g: nat, text: string)
    requires Separated(p) && g < |CaptureTokens(p)| && CaptureTokens(p)[g] == Digits
    requires DigitsGroupAt(p, g, text)
    ensures DigitsGroup(p, g, text).None? <==> forall k: nat :: k <= |text| ==> !MatchesAt(p, text, k)
    ensures DigitsGroup(p, g, text).Some? ==>
      exists start: nat, e: nat, caps ::
        && IsLeftmostLongest(p, text, start, e, caps)
        && g < |caps| && |caps[g]| > 0 && AllDigits(caps[g])
        && DigitsGroup(p, g, text).value == DigitsValue(caps[g])
  {
    SearchFindsLeftmostLongest(p, text);
    SearchGroupsTyped(p, text);
    if Search(p, text).Some? {
      var f := Search(p, text).value;
      assert IsLeftmostLongest(p, text, f.start, f.m.end, f.m.groups);
    }
  }

  // ------------------------------------------------- readings at the start

  /** The pieces `sp1`, `sep`, `sp2`, `v` of a `\s*[:=]\s*` tail ending in
      the value token `t`. */
  lemma ValueTailParts(t: Token, sp1: string, sep: char, sp2: string, v: string)
    ensures Concat([sp1, [sep], sp2, v]) == sp1 + [sep] + sp2 + v
    ensures CapturesOf([Spaces, OneOf(":="), Spaces, t], [sp1, [sep], sp2, v]) == CaptureOf(t, v)
    ensures AllSpace(sp1) && sep in ":=" && AllSpace(sp2) && TokenAccepts(t, v) ==>
      Accepted([Spaces, OneOf(":="), Spaces, t], [sp1, [sep], sp2, v])
  {
    PartsPair(Spaces, OneOf(":="), sp1, [sep]);
    PartsPair(Spaces, t, sp2, v);
    PartsAppend([Spaces, OneOf(":=")], [Spaces, t], [sp1, [sep]], [sp2, v]);
    if AllSpace(sp1) && sep in ":=" && AllSpace(sp2) && TokenAccepts(t, v) {
      AcceptedAppend([Spaces, OneOf(":=")], [Spaces, t], [sp1, [sep]], [sp2, v]);
    }
    assert [sp1, [sep]] + [sp2, v] == [sp1, [sep], sp2, v];
    assert [Spaces, OneOf(":=")] + [Spaces, t] == [Spaces, OneOf(":="), Spaces, t];
    AppendAssoc(sp1 + [sep], sp2, v);
  }

  /** The pieces `b`, `sp`, `w` of a `blood\s*<w>` head. */
  lemma BloodHeadParts(t: Token, b: string, sp: string, w: string)
    ensures Concat([b, sp, w]) == b + sp + w
    ensures CapturesOf([Word("blood"), Spaces, t], [b, sp, w]) == CaptureOf(t, w)
    ensures WordAccepts("blood", b) && AllSpace(sp) && TokenAccepts(t, w) ==>
      Accepted([Word("blood"), Spaces, t], [b, sp, w])
  {
    PartsPair(Word("blood"), Spaces, b, sp);
    PartsSingle(t, w);
    PartsAppend([Word("blood"), Spaces], [t], [b, sp], [w]);
    if WordAccepts("blood", b) && AllSpace(sp) && TokenAccepts(t, w) {
      AcceptedAppend([Word("blood"), Spaces], [t], [b, sp], [w]);
    }
    assert [b, sp] + [w] == [b, sp, w];
    assert [Word("blood"), Spaces] + [t] == [Word("blood"), Spaces, t];
  }

  /** A sugar reading and its groups, piece by piece. */
  lemma SugarReportParts(b: string, sp1: string, kw: string, sp2: string, sep: char, sp3: string, num: string)
    ensures Concat([b, sp1, kw]) + Concat([sp2, [sep], sp3, num]) == b + sp1 + kw + sp2 + [sep] + sp3 + num
    ensures CapturesOf([Word("blood"), Spaces, Either("sugar", "glucose")], [b, sp1, kw])
      + CapturesOf([Spaces, OneOf(":="), Spaces, Number], [sp2, [sep], sp3, num]) == [kw, num]
  {
    BloodHeadParts(Either("sugar", "glucose"), b, sp1, kw);
    ValueTailParts(Number, sp2, sep, sp3, num);
    var h := b + sp1 + kw;
    AppendAssoc(h, sp2, [sep]);
    AppendAssoc(h, sp2 + [sep], sp3);
    AppendAssoc(h, sp2 + [sep] + sp3, num);
    assert [kw] + [num] == [kw, num];
  }

  /** `re.search` finds the sugar pattern at the start of a report that
      opens with a sugar reading, with the keyword and the number as its
      two groups. */
  lemma SugarSearchAtStart(b: string, sp1: string, kw: string, sp2: string, sep: char, sp3: string,
                           num: string, rest: string)
    requires WordAccepts("blood", b) && (WordAccepts("sugar", kw) || WordAccepts("glucose", kw))
    requires AllSpace(sp1) && AllSpace(sp2) && AllSpace(sp3) && sep in ":="
    requires IsDecimalText(num) && (rest != [] ==> !IsDigit(rest[0]) && rest[0] != '.')
    ensures SearchGroups(SugarPattern, b + sp1 + kw + sp2 + [sep] + sp3 + num + rest) == Some([kw, num])
  {
    var head := [Word("blood"), Spaces, Either("sugar", "glucose")];
    var tail := [Spaces, OneOf(":="), Spaces, Number];
    assert head + tail == SugarPattern;
    SugarPatternSeparated();
    BloodHeadParts(Either("sugar", "glucose"), b, sp1, kw);
    ValueTailParts(Number, sp2, sep, sp3, num);
    SearchOfHeadAndTail(head, tail, [b, sp1, kw], [sp2, [sep], sp3, num], rest);
    SugarReportParts(b, sp1, kw, sp2, sep, sp3, num);
  }

  /** A report that opens with `blood`, the keyword `sugar` or `glucose`,
      `:` or `=` with optional whitespace between them, and a number not
      followed by another digit or dot (letter case ignored throughout), has
      that number as its blood-sugar reading. */
  lemma SugarReadingAtStart(b: string, sp1: string, kw: string, sp2: string, sep: char, sp3: string,
                            num: string, rest: string)
    requires WordAccepts("blood", b) && (WordAccepts("sugar", kw) || WordAccepts("glucose", kw))
    requires AllSpace(sp1) && AllSpace(sp2) && AllSpace(sp3) && sep in ":="
    requires IsDecimalText(num) && (rest != [] ==> !IsDigit(rest[0]) && rest[0] != '.')
    ensures Readings(b + sp1 + kw + sp2 + [sep] + sp3 + num + rest).bloodSugar == Some(DecimalValue(num))
  {
    SugarSearchAtStart(b, sp1, kw, sp2, sep, sp3, num, rest);
  }

  /** The pieces of the blood-pressure tail `\s*[:=]\s*(\d+)/(\d+)`. */
  lemma PressureTailParts(sp1: string, sep: char, sp2: string, sys: string, dia: string)
    ensures Concat([sp1, [sep], sp2, sys, "/", dia]) == sp1 + [sep] + sp2 + sys + "/" + dia
    ensures CapturesOf([Spaces, OneOf(":="), Spaces, Digits, Lit('/'), Digits], [sp1, [sep], sp2, sys, "/", dia])
      == [sys, dia]
    ensures AllSpace(sp1) && sep in ":=" && AllSpace(sp2) && TokenAccepts(Digits, sys) && TokenAccepts(Digits, dia) ==>
      Accepted([Spaces, OneOf(":="), Spaces, Digits, Lit('/'), Digits], [sp1, [sep], sp2, sys, "/", dia])
  {
    var t := [Spaces, OneOf(":="), Spaces, Digits];
    var q := [sp1, [sep], sp2, sys];
    ValueTailParts(Digits, sp1, sep, sp2, sys);
    PartsPair(Lit('/'), Digits, "/", dia);
    PartsAppend(t, [Lit('/'), Digits], q, ["/", dia]);
    if AllSpace(sp1) && sep in ":=" && AllSpace(sp2) && TokenAccepts(Digits, sys) && TokenAccepts(Digits, dia) {
      AcceptedAppend(t, [Lit('/'), Digits], q, ["/", dia]);
    }
    assert q + ["/", dia] == [sp1, [sep], sp2, sys, "/", dia];
    assert t + [Lit('/'), Digits] == [Spaces, OneOf(":="), Spaces, Digits, Lit('/'), Digits];
    var a := sp1 + [sep] + sp2 + sys;
    AppendAssoc(a, "/", dia);
  }

  /** A blood-pressure reading and its groups, piece by piece. */
  lemma PressureReportParts(b: string, sp1: string, pr: string, sp2: string, sep: char, sp3: string,
                            sys: string, dia: string)
    ensures Concat([b, sp1, pr]) + Concat([sp2, [sep], sp3, sys, "/", dia])
      == b + sp1 + pr + sp2 + [sep] + sp3 + sys + "/" + dia
    ensures CapturesOf([Word("blood"), Spaces, Word("pressure")], [b, sp1, pr])
      + CapturesOf([Spaces, OneOf(":="), Spaces, Digits, Lit('/'), Digits], [sp2, [sep], sp3, sys, "/", dia])
      == [sys, dia]
  {
    BloodHeadParts(Word("pressure"), b, sp1, pr);
    PressureTailParts(sp2, sep, sp3, sys, dia);
    var h := b + sp1 + pr;
    AppendAssoc(h, sp2, [sep]);
    AppendAssoc(h, sp2 + [sep], sp3);
    AppendAssoc(h, sp2 + [sep] + sp3, sys);
    AppendAssoc(h, sp2 + [sep] + sp3 + sys, "/");
    AppendAssoc(h, sp2 + [sep] + sp3 + sys + "/", dia);
    assert [] + [sys, dia] == [sys, dia];
  }

  /** `re.search` finds the blood-pressure pattern at the start of a report
      that opens with a blood-pressure reading, with the two numbers as its
      groups. */
  lemma PressureSearchAtStart(b: string, sp1: string, pr: string, sp2: string, sep: char, sp3: string,
                              sys: string, dia: string, rest: string)
    requires WordAccepts("blood", b) && WordAccepts("pressure", pr)
    requires AllSpace(sp1) && AllSpace(sp2) && AllSpace(sp3) && sep in ":="
    requires |sys| > 0 && AllDigits(sys) && |dia| > 0 && AllDigits(dia)
    requires rest != [] ==> !IsDigit(rest[0])
    ensures SearchGroups(PressurePattern, b + sp1 + pr + sp2 + [sep] + sp3 + sys + "/" + dia + rest)
      == Some([sys, dia])
  {
    var head := [Word("blood"), Spaces, Word("pressure")];
    var tail := [Spaces, OneOf(":="), Spaces, Digits, Lit('/'), Digits];
    assert head + tail == PressurePattern;
    PressurePatternSeparated();
    BloodHeadParts(Word("pressure"), b, sp1, pr);
    PressureTailParts(sp2, sep, sp3, sys, dia);
    SearchOfHeadAndTail(head, tail, [b, sp1, pr], [sp2, [sep], sp3, sys, "/", dia], rest);
    PressureReportParts(b, sp1, pr, sp2, sep, sp3, sys, dia);
  }

  /** A report that opens with a blood-pressure reading `s/d` has those two
      numbers as its systolic and diastolic readings. */
  lemma PressureReadingAtStart(b: string, sp1: string, pr: string, sp2: string, sep: char, sp3: string,
                               sys: string, dia: string, rest: string)
    requires WordAccepts("blood", b) && WordAccepts("pressure", pr)
    requires AllSpace(sp1) && AllSpace(sp2) && AllSpace(sp3) && sep in ":="
    requires |sys| > 0 && AllDigits(sys) && |dia| > 0 && AllDigits(dia)
    requires rest != [] ==> !IsDigit(rest[0])
    ensures var r := Readings(b + sp1 + pr + sp2 + [sep] + sp3 + sys + "/" + dia + rest);
      r.bpSystolic == Some(DigitsValue(sys)) && r.bpDiastolic == Some(DigitsValue(dia))
  {
    PressureSearchAtStart(b, sp1, pr, sp2, sep, sp3, sys, dia, rest);
  }

  /** A report that opens with one of the cholesterol, creatinine and BMI
      names in any letter case, `:` or `=` with optional whitespace around
      it, and a number not followed by another digit or dot, has that
      number as the pattern's only group. */
  lemma LabReadingAtStart(w: string, name: string, sp1: string, sep: char, sp2: string, num: string, rest: string)
    requires |w| > 0 && IsLetter(w[0]) && WordAccepts(w, name)
    requires AllSpace(sp1) && AllSpace(sp2) && sep in ":="
    requires IsDecimalText(num) && (rest != [] ==> !IsDigit(rest[0]) && rest[0] != '.')
    ensures var p := [Word(w), Spaces, OneOf(":="), Spaces, Number];
      SearchGroups(p, name + sp1 + [sep] + sp2 + num + rest) == Some([num])
  {
    var p := [Word(w), Spaces, OneOf(":="), Spaces, Number];
    var tail := [Spaces, OneOf(":="), Spaces, Number];
    var tailParts := [sp1, [sep], sp2, num];
    assert [Word(w)] + tail == p;
    LabPatternSeparated(w);
    PartsSingle(Word(w), name);
    ValueTailParts(Number, sp1, sep, sp2, num);
    SearchOfHeadAndTail([Word(w)], tail, [name], tailParts, rest);
    AppendAssoc(name, sp1, [sep]);
    AppendAssoc(name, sp1 + [sep], sp2);
    AppendAssoc(name, sp1 + [sep] + sp2, num);
    var text := name + sp1 + [sep] + sp2 + num + rest;
    assert Concat([name]) + Concat(tailParts) + rest == text;
    assert SearchGroups(p, text) == Some([] + [num]);
    assert [] + [num] == [num];
  }

  /** A report opening with `"Blood Sugar: 126"` reads as 126, which is
      pre-diabetes, not diabetes, whatever follows. */
  lemma SugarExample(rest: string)
    requires rest != [] ==> !IsDigit(rest[0]) && rest[0] != '.'
    ensures Readings("Blood Sugar: 126" + rest).bloodSugar == Some(126.0)
    ensures SugarCondition(Readings("Blood Sugar: 126" + rest)) == Some(Condition(PreDiabetes, Moderate))
  {
    ExamplePieces();
    SugarReadingAtStart("Blood", " ", "Sugar", "", ':', " ", "126", rest);
    ExampleText();
  }

  lemma ExamplePieces()
    ensures WordAccepts("blood", "Blood") && WordAccepts("sugar", "Sugar")
    ensures AllSpace(" ") && AllSpace("") && ':' in ":="
    ensures IsDecimalText("126") && DecimalValue("126") == 126.0
  {
    ShowHasNoDot(126);
    assert Show(126) == "126";
  }

  lemma ExampleText()
    ensures "Blood" + " " + "Sugar" + "" + [':'] + " " + "126" == "Blood Sugar: 126"
  {
    assert "Blood" + " " == "Blood ";
    assert "Blood " + "Sugar" == "Blood Sugar";
    assert "Blood Sugar" + "" == "Blood Sugar";
    assert "Blood Sugar" + [':'] == "Blood Sugar:";
    assert "Blood Sugar:" + " " == "Blood Sugar: ";
  }

  // ------------------------------------------------------ classification

  /** Blood sugar: above 126 is diabetes, above 100 up to 126 pre-diabetes. */
  function SugarFlag(x: real): (r: Option<Condition>)
    ensures r == Some(Condition(Diabetes, High)) <==> x > 126.0
    ensures r == Some(Condition(PreDiabetes, Moderate)) <==> 100.0 < x <= 126.0
    ensures r.None? <==> x <= 100.0
  {
    if x > 126.0 then Some(Condition(Diabetes, High))
    else if 100.0 < x <= 126.0 then Some(Condition(PreDiabetes, Moderate))
    else None
  }

  /** Blood pressure: either reading high is hypertension; otherwise either
      reading in its borderline band is pre-hypertension. */
  function PressureFlag(systolic: int, diastolic: int): (r: Option<Condition>)
    ensures r == Some(Condition(Hypertension, High)) <==> systolic > 140 || diastolic > 90
    ensures r == Some(Condition(PreHypertension, Moderate)) <==>
      systolic <= 140 && diastolic <= 90 && (systolic >= 120 || diastolic >= 80)
    ensures r.None? <==> systolic < 120 && diastolic < 80
  {
    if systolic > 140 || diastolic > 90 then Some(Condition(Hypertension, High))
    else if 120 <= systolic <= 140 || 80 <= diastolic <= 90 then Some(Condition(PreHypertension, Moderate))
    else None
  }

  /** Cholesterol: high when strictly above 200. */
  function CholesterolFlag(x: real): (r: Option<Condition>)
    ensures r.Some? <==> x > 200.0
    ensures r.Some? ==> r.value == Condition(HighCholesterol, High)
  {
    if x > 200.0 then Some(Condition(HighCholesterol, High)) else None
  }

  /** Creatinine: a kidney issue when strictly above 1.2. */
  function CreatinineFlag(x: real): (r: Option<Condition>)
    ensures r.Some? <==> x > 1.2
    ensures r.Some? ==> r.value == Condition(KidneyIssue, Moderate)
  {
    if x > 1.2 then Some(Condition(KidneyIssue, Moderate)) else None
  }

  /** BMI: above 30 is obesity, 25 to 30 inclusive overweight. */
  function BmiFlag(x: real): (r: Option<Condition>)
    ensures r == Some(Condition(Obesity, High)) <==> x > 30.0
    ensures r == Some(Condition(Overweight, Moderate)) <==> 25.0 <= x <= 30.0
    ensures r.None? <==> x < 25.0
  {
    if x > 30.0 then Some(Condition(Obesity, High))
    else if 25.0 <= x <= 30.0 then Some(Condition(Overweight, Moderate))
    else None
  }

  /** How serious a flag is: nothing, moderate, high. */
  function Severity(r: Option<Condition>): nat {
    match r
    case None => 0
    case Some(c) => if c.likelihood == High then 2 else 1
  }

  /** A worse reading never yields a milder flag. */
  lemma FlagsMonotone(x: real, y: real, s1: int, d1: int, s2: int, d2: int)
    requires x <= y && s1 <= s2 && d1 <= d2
    ensures Severity(SugarFlag(x)) <= Severity(SugarFlag(y))
    ensures Severity(PressureFlag(s1, d1)) <= Severity(PressureFlag(s2, d2))
    ensures Severity(CholesterolFlag(x)) <= Severity(CholesterolFlag(y))
    ensures Severity(CreatinineFlag(x)) <= Severity(CreatinineFlag(y))
    ensures Severity(BmiFlag(x)) <= Severity(BmiFlag(y))
  {
  }

  /** The boundary readings the thresholds are written around. */
  lemma FlagBoundaries()
    ensures SugarFlag(126.0) == Some(Condition(PreDiabetes, Moderate)) && SugarFlag(100.0).None?
    ensures PressureFlag(140, 90) == Some(Condition(PreHypertension, Moderate))
    ensures PressureFlag(110, 70).None? && PressureFlag(141, 60) == Some(Condition(Hypertension, High))
    ensures CholesterolFlag(200.0).None?
    ensures BmiFlag(30.0) == Some(Condition(Overweight, Moderate)) && BmiFlag(24.9).None?
  {
  }

  // ------------------------------------------------------ the flag list

  /** The flag each field raises. */
  function SugarCondition(ind: Indicators): Option<Condition> {
    if ind.bloodSugar.Some? then SugarFlag(ind.bloodSugar.value) else None
  }

  function PressureCondition(ind: Indicators): Option<Condition> {
    if ind.bpSystolic.Some? && ind.bpDiastolic.Some?
    then PressureFlag(ind.bpSystolic.value, ind.bpDiastolic.value) else None
  }

  function CholesterolCondition(ind: Indicators): Option<Condition> {
    if ind.cholesterol.Some? then CholesterolFlag(ind.cholesterol.value) else None
  }

  function CreatinineCondition(ind: Indicators): Option<Condition> {
    if ind.creatinine.Some? then CreatinineFlag(ind.creatinine.value) else None
  }

  function BmiCondition(ind: Indicators): Option<Condition> {
    if ind.bmi.Some? then BmiFlag(ind.bmi.value) else None
  }

  /** The five flags, in the order the source tests them. */
  function Flags(ind: Indicators): (r: seq<Option<Condition>>)
    ensures |r| == 5
  {
    [SugarCondition(ind), PressureCondition(ind), CholesterolCondition(ind),
     CreatinineCondition(ind), BmiCondition(ind)]
  }

  /** The entry a flag appends to the list: one condition or nothing. */
  function Present(o: Option<Condition>): (r: seq<Condition>)
    ensures |r| <= 1
  {
    if o.Some? then [o.value] else []
  }

  /** The returned condition list: the five flags that are raised, in order. */
  function Conditions(ind: Indicators): seq<Condition> {
    Present(SugarCondition(ind)) + Present(PressureCondition(ind)) + Present(CholesterolCondition(ind))
    + Present(CreatinineCondition(ind)) + Present(BmiCondition(ind))
  }

  /** Which field a flag belongs to: 0 sugar, 1 blood pressure,
      2 cholesterol, 3 creatinine, 4 BMI. */
  function Rank(c: Condition): nat {
    match c.name
    case Diabetes | PreDiabetes => 0
    case Hypertension | PreHypertension => 1
    case HighCholesterol => 2
    case KidneyIssue => 3
    case Obesity | Overweight => 4
  }

  /** The `k`-th flag, when raised, belongs to field `k`. */
  lemma FlagRanks(ind: Indicators)
    ensures forall k :: 0 <= k < 5 && Flags(ind)[k].Some? ==> Rank(Flags(ind)[k].value) == k
  {
  }

  predicate RankedBelow(a: seq<Condition>, n: nat) {
    (forall i :: 0 <= i < |a| ==> Rank(a[i]) < n)
    && (forall i, j :: 0 <= i < j < |a| ==> Rank(a[i]) < Rank(a[j]))
  }

  /** Strictly increasing ranks below `n` leave room for at most `n` entries. */
  lemma {:induction false} RankedBelowLength(a: seq<Condition>, n: nat)
    requires RankedBelow(a, n)
    ensures |a| <= n
  {
    if a != [] {
      var last := a[|a| - 1];
      assert RankedBelow(a[..|a| - 1], Rank(last));
      RankedBelowLength(a[..|a| - 1], Rank(last));
    }
  }

  lemma AppendRanked(a: seq<Condition>, o: Option<Condition>, n: nat)
    requires RankedBelow(a, n) && RankIs(o, n)
    ensures RankedBelow(a + Present(o), n + 1)
  {
    var b := a + Present(o);
    forall i, j | 0 <= i < j < |b| ensures Rank(b[i]) < Rank(b[j]) {
      if j >= |a| { assert b[j] == o.value; }
    }
  }

  /** An optional flag of rank `n`. */
  predicate RankIs(o: Option<Condition>, n: nat) {
    o.Some? ==> Rank(o.value) == n
  }

  /** Five optional flags, the `k`-th of rank `k`, list in increasing rank. */
  lemma RankedFlags(f0: Option<Condition>, f1: Option<Condition>, f2: Option<Condition>,
                    f3: Option<Condition>, f4: Option<Condition>)
    requires RankIs(f0, 0) && RankIs(f1, 1) && RankIs(f2, 2) && RankIs(f3, 3) && RankIs(f4, 4)
    ensures RankedBelow(Present(f0) + Present(f1) + Present(f2) + Present(f3) + Present(f4), 5)
  {
    var a0 := Present(f0);
    AppendRanked([], f0, 0);
    assert [] + a0 == a0;
    var a1 := a0 + Present(f1);
    AppendRanked(a0, f1, 1);
    var a2 := a1 + Present(f2);
    AppendRanked(a1, f2, 2);
    var a3 := a2 + Present(f3);
    AppendRanked(a2, f3, 3);
    AppendRanked(a3, f4, 4);
  }

  /** At most one flag per field, so at most five, and always in the fixed
      order sugar, blood pressure, cholesterol, creatinine, BMI, whatever
      the order of the readings in the text. */
  lemma ConditionsOrdered(ind: Indicators)
    ensures |Conditions(ind)| <= 5
    ensures forall i, j :: 0 <= i < j < |Conditions(ind)| ==> Rank(Conditions(ind)[i]) < Rank(Conditions(ind)[j])
  {
    FlagRanks(ind);
    var f := Flags(ind);
    assert RankIs(f[0], 0) && RankIs(f[1], 1) && RankIs(f[2], 2) && RankIs(f[3], 3) && RankIs(f[4], 4);
    RankedFlags(f[0], f[1], f[2], f[3], f[4]);
    assert Conditions(ind) == Present(f[0]) + Present(f[1]) + Present(f[2]) + Present(f[3]) + Present(f[4]);
    RankedBelowLength(Conditions(ind), 5);
  }

  /** A condition is listed exactly when one of the five fields raises it. */
  lemma ConditionsListed(ind: Indicators)
    ensures forall c :: c in Conditions(ind) <==> exists k :: 0 <= k < 5 && Flags(ind)[k] == Some(c)
  {
    var f := Flags(ind);
    forall c ensures c in Conditions(ind) <==> exists k :: 0 <= k < 5 && f[k] == Some(c) {
      if c in Conditions(ind) {
        if c in Present(f[0]) { assert f[0] == Some(c); }
        else if c in Present(f[1]) { assert f[1] == Some(c); }
        else if c in Present(f[2]) { assert f[2] == Some(c); }
        else if c in Present(f[3]) { assert f[3] == Some(c); }
        else { assert f[4] == Some(c); }
      }
    }
  }

  /** Nothing found, nothing flagged. */
  lemma NoReadingsNoConditions()
    ensures Conditions(NoIndicators) == []
  {
  }

  // ------------------------------------------------------------ analysis

  /** `analyze_health_indicators(text)`: the record starts empty, then each
      of the five searches, in turn, may fill its field and append a flag. */
  method AnalyzeHealthIndicators(text: string) returns (indicators: Indicators, conditions: seq<Condition>)
    ensures indicators == Readings(text)
    ensures conditions == Conditions(indicators)
  {
    GroupsTyped(text);
    indicators := NoIndicators;
    conditions := [];

    var sugar := DecimalGroup(SugarPattern, 1, text);
    var systolic := DigitsGroup(PressurePattern, 0, text);
    var diastolic := DigitsGroup(PressurePattern, 1, text);
    var cholesterol := DecimalGroup(CholesterolPattern, 0, text);
    var creatinine := DecimalGroup(CreatininePattern, 0, text);
    var bmi := DecimalGroup(BmiPattern, 0, text);

    if sugar.Some? {
      indicators := indicators.(bloodSugar := sugar);
      conditions := conditions + Present(SugarFlag(sugar.value));
    }
    assert indicators == Indicators(sugar, None, None, None, None, None);
    assert conditions == Present(SugarCondition(indicators));
    ghost var sofar := conditions;

    if systolic.Some? {
      indicators := indicators.(bpSystolic := systolic, bpDiastolic := diastolic);
      conditions := conditions + Present(PressureFlag(systolic.value, diastolic.value));
    }
    assert indicators == Indicators(sugar, systolic, diastolic, None, None, None);
    assert conditions == sofar + Present(PressureCondition(indicators));
    sofar := conditions;

    if cholesterol.Some? {
      indicators := indicators.(cholesterol := cholesterol);
      conditions := conditions + Present(CholesterolFlag(cholesterol.value));
    }
    assert indicators == Indicators(sugar, systolic, diastolic, cholesterol, None, None);
    assert conditions == sofar + Present(CholesterolCondition(indicators));
    sofar := conditions;

    if creatinine.Some? {
      indicators := indicators.(creatinine := creatinine);
      conditions := conditions + Present(CreatinineFlag(creatinine.value));
    }
    assert indicators == Indicators(sugar, systolic, diastolic, cholesterol, creatinine, None);
    assert conditions == sofar + Present(CreatinineCondition(indicators));
    sofar := conditions;

    if bmi.Some? {
      indicators := indicators.(bmi := bmi);
      conditions := conditions + Present(BmiFlag(bmi.value));
    }
  }
}
