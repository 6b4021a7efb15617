/** The fragment of Python's `re` that the lab-value patterns are written
    in: case-insensitive words, `(a|b)` groups, `\s*`, one-character
    classes and literals, and the greedy number groups `(\d+)` and
    `(\d+\.?\d*)`.

    A pattern is a sequence of tokens. `Derives` is the declarative
    meaning of a pattern (which strings it matches, with which group
    texts); `MatchAt` is the matcher, which takes every token greedily and
    never backtracks; `Search` is `re.search`, trying start positions from
    left to right. For patterns whose neighbouring tokens cannot compete
    for a character (`Separated`), backtracking could never have found
    anything else, and `SearchFindsLeftmostLongest` proves that `Search`
    returns the leftmost start at which the pattern matches, the longest
    match there, and the only group texts such a match can have. */
module Regex {
  import opened Options
  import opened Text
  import opened Numerals

  datatype Token =
    | Word(w: string)               // a literal word, compared ignoring case
    | Either(a: string, b: string)  // the capturing group (a|b), ignoring case
    | Spaces                        // \s*
    | OneOf(cs: seq<char>)          // a one-character class such as [:=]
    | Lit(c: char)                  // one literal character such as /
    | Digits                        // the capturing group (\d+)
    | Number                        // the capturing group (\d+\.?\d*)

  predicate Captures(t: Token) { t.Either? || t.Digits? || t.Number? }

  /** Quantified tokens, which take as many characters as they can. */
  predicate Greedy(t: Token) { t.Spaces? || t.Digits? || t.Number? }

  /** The capturing tokens of `p`, in order: group `g + 1` of a match is
      text that `CaptureTokens(p)[g]` accepts. */
  function CaptureTokens(p: seq<Token>): (r: seq<Token>)
    ensures forall i :: 0 <= i < |r| ==> Captures(r[i])
  {
    if p == [] then [] else (if Captures(p[0]) then [p[0]] else []) + CaptureTokens(p[1..])
  }

  /** Equal under `(?i)`. */
  predicate SameLetter(x: char, y: char) { ToLower(x) == ToLower(y) }

  predicate WordAccepts(w: string, u: string) {
    |u| == |w| && forall i :: 0 <= i < |u| ==> SameLetter(u[i], w[i])
  }

  // ------------------------------------------------ declarative semantics

  /** The strings one token matches on its own. */
  predicate TokenAccepts(t: Token, u: string) {
    match t
    case Word(w) => WordAccepts(w, u)
    case Either(a, b) => WordAccepts(a, u) || WordAccepts(b, u)
    case Spaces => AllSpace(u)
    case OneOf(cs) => |u| == 1 && u[0] in cs
    case Lit(c) => u == [c]
    case Digits => |u| > 0 && AllDigits(u)
    case Number => IsDecimalText(u)
  }

  /** The group text a token contributes when it matched `u`. */
  function CaptureOf(t: Token, u: string): seq<string> {
    if Captures(t) then [u] else []
  }

  /** The first token takes `u[..j]` and the rest of the pattern derives the rest. */
  ghost predicate DerivesSplit(p: seq<Token>, u: string, caps: seq<string>, j: nat)
    requires p != [] && j <= |u|
    decreases |p|, 0
  {
    var c := CaptureOf(p[0], u[..j]);
    TokenAccepts(p[0], u[..j]) && |c| <= |caps| && caps[..|c|] == c
    && Derives(p[1..], u[j..], caps[|c|..])
  }

  /** Pattern `p` matches all of `u`, with group texts `caps`. */
  ghost predicate Derives(p: seq<Token>, u: string, caps: seq<string>)
    decreases |p|, 1
  {
    if p == [] then u == [] && caps == []
    else exists j: nat :: j <= |u| && DerivesSplit(p, u, caps, j)
  }

  /** Some match of `p` starts at `k` in `s` (`re.match(p, s[k:])` succeeds). */
  ghost predicate MatchesAt(p: seq<Token>, s: string, k: nat) {
    k <= |s| && exists e: nat, caps :: k <= e <= |s| && Derives(p, s[k..e], caps)
  }

  // ------------------------------------------------------ greedy matcher

  /** End of the whitespace run starting at `k`. */
  function SpaceRun(s: string, k: nat): (e: nat)
    requires k <= |s|
    ensures k <= e <= |s|
    decreases |s| - k
  {
    if k < |s| && IsSpace(s[k]) then SpaceRun(s, k + 1) else k
  }

  lemma {:induction false} SpaceRunSpec(s: string, k: nat)
    requires k <= |s|
    ensures var e := SpaceRun(s, k);
      (forall i :: k <= i < e ==> IsSpace(s[i])) && (e < |s| ==> !IsSpace(s[e]))
    decreases |s| - k
  {
    if k < |s| && IsSpace(s[k]) {
      SpaceRunSpec(s, k + 1);
    }
  }

  /** End of the digit run starting at `k`. */
  function DigitRun(s: string, k: nat): (e: nat)
    requires k <= |s|
    ensures k <= e <= |s|
    decreases |s| - k
  {
    if k < |s| && IsDigit(s[k]) then DigitRun(s, k + 1) else k
  }

  lemma {:induction false} DigitRunSpec(s: string, k: nat)
    requires k <= |s|
    ensures var e := DigitRun(s, k);
      (forall i :: k <= i < e ==> IsDigit(s[i])) && (e < |s| ==> !IsDigit(s[e]))
    decreases |s| - k
  {
    if k < |s| && IsDigit(s[k]) {
      DigitRunSpec(s, k + 1);
    }
  }

  /** Where the word `w` ends if it occurs at `k`, ignoring case. */
  function WordEnd(w: string, s: string, k: nat): (r: Option<nat>)
    requires k <= |s|
    ensures r.Some? ==> r.value == k + |w| <= |s|
  {
    if k + |w| <= |s| && WordAccepts(w, s[k..k + |w|]) then Some(k + |w|) else None
  }

  lemma WordEndSpec(w: string, s: string, k: nat)
    requires k <= |s|
    ensures var r := WordEnd(w, s, k);
      (r.Some? ==> WordAccepts(w, s[k..r.value]))
      && forall e :: k <= e <= |s| && WordAccepts(w, s[k..e]) ==> r == Some(e)
  {
  }

  /** The character `c` could have been taken by greedy token `t`. */
  predicate Extends(t: Token, c: char) {
    (t.Spaces? && IsSpace(c)) || (t.Digits? && IsDigit(c)) || (t.Number? && (IsDigit(c) || c == '.'))
  }

  /** An `(a|b)` group whose alternatives start with different letters. */
  predicate WellFormed(t: Token) {
    t.Either? ==> |t.a| > 0 && |t.b| > 0 && !SameLetter(t.a[0], t.b[0])
  }

  /** Where the token at `k` ends: greedy tokens take the longest run. */
  function TokenEnd(t: Token, s: string, k: nat): (r: Option<nat>)
    requires k <= |s|
    ensures r.Some? ==> k <= r.value <= |s|
  {
    match t
    case Word(w) => WordEnd(w, s, k)
    case Either(a, b) =>
      var ra := WordEnd(a, s, k);
      if ra.Some? then ra else WordEnd(b, s, k)
    case Spaces => Some(SpaceRun(s, k))
    case OneOf(cs) => if k < |s| && s[k] in cs then Some(k + 1) else None
    case Lit(c) => if k < |s| && s[k] == c then Some(k + 1) else None
    case Digits =>
      var e := DigitRun(s, k);
      if e == k then None else Some(e)
    case Number => NumberEnd(s, k)
  }

  /** The token accepts what `TokenEnd` gives it; a greedy token stops only
      where its run stops; and no text the token accepts from `k` is longer
      (for a non-greedy token: has another length) than what it is given. */
  predicate EndMeets(t: Token, s: string, k: nat, r: Option<nat>)
    requires k <= |s| && (r.Some? ==> k <= r.value <= |s|)
  {
    && (r.Some? ==> TokenAccepts(t, s[k..r.value]))
    && (r.Some? && Greedy(t) ==> forall i :: k <= i < r.value ==> Extends(t, s[i]))
    && (forall e :: k <= e <= |s| && TokenAccepts(t, s[k..e]) ==>
          r.Some? && (WellFormed(t) ==> e <= r.value && (!Greedy(t) ==> e == r.value)))
  }

  lemma TokenEndSpec(t: Token, s: string, k: nat)
    requires k <= |s|
    ensures EndMeets(t, s, k, TokenEnd(t, s, k))
  {
    match t
    case Word(w) =>
      WordEndSpec(w, s, k);
    case Either(a, b) =>
      EitherEndSpec(a, b, s, k);
    case Spaces =>
      SpacesEndSpec(s, k);
    case OneOf(cs) =>
    case Lit(c) =>
    case Digits =>
      DigitsEndSpec(s, k);
    case Number =>
      NumberEndSpec(s, k);
  }

  lemma EitherEndSpec(a: string, b: string, s: string, k: nat)
    requires k <= |s|
    ensures EndMeets(Either(a, b), s, k, TokenEnd(Either(a, b), s, k))
  {
    WordEndSpec(a, s, k);
    WordEndSpec(b, s, k);
    var ra := WordEnd(a, s, k);
    if ra.Some? && WellFormed(Either(a, b)) {
      assert SameLetter(s[k..ra.value][0], a[0]);
      forall e | k <= e <= |s| ensures !WordAccepts(b, s[k..e]) {
        if e == k + |b| { assert s[k..e][0] == s[k]; }
      }
    }
  }

  lemma SpacesEndSpec(s: string, k: nat)
    requires k <= |s|
    ensures EndMeets(Spaces, s, k, TokenEnd(Spaces, s, k))
  {
    SpaceRunSpec(s, k);
    var e := SpaceRun(s, k);
    forall e' | e < e' <= |s| ensures !AllSpace(s[k..e']) { assert s[k..e'][e - k] == s[e]; }
  }

  lemma DigitsEndSpec(s: string, k: nat)
    requires k <= |s|
    ensures EndMeets(Digits, s, k, TokenEnd(Digits, s, k))
  {
    DigitRunSpec(s, k);
    var e := DigitRun(s, k);
    forall e' | e < e' <= |s| ensures !AllDigits(s[k..e']) { assert s[k..e'][e - k] == s[e]; }
    assert e == k ==> forall e' :: k < e' <= |s| ==> !AllDigits(s[k..e']);
  }

  /** Greedy `\d+\.?\d*` at `k`: all digits, then a dot and digits if a dot follows. */
  function NumberEnd(s: string, k: nat): (r: Option<nat>)
    requires k <= |s|
    ensures r.Some? ==> k <= r.value <= |s|
  {
    var d := DigitRun(s, k);
    if d == k then None
    else if d < |s| && s[d] == '.' then Some(DigitRun(s, d + 1))
    else Some(d)
  }

  /** `NumberEnd` takes the longest text `\d+\.?\d*` accepts. */
  lemma NumberEndSpec(s: string, k: nat)
    requires k <= |s|
    ensures EndMeets(Number, s, k, NumberEnd(s, k))
  {
    var d := DigitRun(s, k);
    DigitRunSpec(s, k);
    if d == k {
      forall e | k <= e <= |s| ensures !IsDecimalText(s[k..e]) {
        if e > k { assert s[k..e][0] == s[k]; }
      }
    } else if d < |s| && s[d] == '.' {
      NumberWithDot(s, k, d);
    } else {
      assert IsDecimalText(s[k..d]) by {
        assert forall i :: 0 <= i < d - k ==> s[k..d][i] == s[k + i];
      }
      forall e | d < e <= |s| ensures !IsDecimalText(s[k..e]) {
        assert s[k..e][d - k] == s[d];
      }
    }
  }

  /** Digits from `k` to `d`, then a dot: the number runs to the end of the
      digits after the dot. */
  lemma NumberWithDot(s: string, k: nat, d: nat)
    requires k < d < |s| && s[d] == '.' && d == DigitRun(s, k)
    ensures EndMeets(Number, s, k, Some(DigitRun(s, d + 1)))
  {
    DigitRunSpec(s, k);
    var f := DigitRun(s, d + 1);
    DigitRunSpec(s, d + 1);
    var u := s[k..f];
    assert IsDecimalText(u) by {
      assert forall i :: 0 <= i < |u| ==> u[i] == s[k + i];
      assert forall i :: 0 <= i < |u| && u[i] == '.' ==> i == d - k;
    }
    forall e | f < e <= |s| ensures !IsDecimalText(s[k..e]) {
      var v := s[k..e];
      assert v[d - k] == '.';
      assert v[f - k] == s[f];
    }
  }

  datatype Match = Match(end: nat, groups: seq<string>)

  /** `re.match` at position `k`: each token in turn, greedily, no backtracking. */
  function MatchAt(p: seq<Token>, s: string, k: nat): (r: Option<Match>)
    requires k <= |s|
    ensures r.Some? ==> k <= r.value.end <= |s|
    decreases |p|
  {
    if p == [] then
      Some(Match(k, []))
    else
      match TokenEnd(p[0], s, k)
      case None => None
      case Some(e) =>
        match MatchAt(p[1..], s, e)
        case None => None
        case Some(m) => Some(Match(m.end, CaptureOf(p[0], s[k..e]) + m.groups))
  }

  /** Group `g + 1` of a match is text the `g`-th capturing token accepts. */
  lemma {:induction false} DerivesGroups(p: seq<Token>, u: string, caps: seq<string>)
    requires Derives(p, u, caps)
    ensures |caps| == |CaptureTokens(p)|
    ensures forall g :: 0 <= g < |caps| ==> TokenAccepts(CaptureTokens(p)[g], caps[g])
    decreases |p|
  {
    if p != [] {
      var j: nat :| j <= |u| && DerivesSplit(p, u, caps, j);
      var c := CaptureOf(p[0], u[..j]);
      var rest := caps[|c|..];
      DerivesGroups(p[1..], u[j..], rest);
      assert caps == c + rest;
      forall g | 0 <= g < |caps| ensures TokenAccepts(CaptureTokens(p)[g], caps[g]) {
        if g >= |c| {
          assert CaptureTokens(p)[g] == CaptureTokens(p[1..])[g - |c|];
          assert caps[g] == rest[g - |c|];
        }
      }
    }
  }

  /** A first token's text followed by a match of the remaining tokens is a match. */
  lemma DerivesCons(p: seq<Token>, s: string, k: nat, j: nat, e: nat, rest: seq<string>)
    requires p != [] && k <= j <= e <= |s|
    requires TokenAccepts(p[0], s[k..j]) && Derives(p[1..], s[j..e], rest)
    ensures Derives(p, s[k..e], CaptureOf(p[0], s[k..j]) + rest)
  {
    var groups := CaptureOf(p[0], s[k..j]) + rest;
    var u := s[k..e];
    assert u[..j - k] == s[k..j] && u[j - k..] == s[j..e];
    assert groups[|CaptureOf(p[0], s[k..j])|..] == rest;
    assert DerivesSplit(p, u, groups, j - k);
  }

  /** Soundness of the matcher: what it reports is a match, group texts included. */
  lemma {:induction false} MatchAtSound(p: seq<Token>, s: string, k: nat)
    requires k <= |s| && MatchAt(p, s, k).Some?
    ensures Derives(p, s[k..MatchAt(p, s, k).value.end], MatchAt(p, s, k).value.groups)
    decreases |p|
  {
    if p != [] {
      var e := TokenEnd(p[0], s, k).value;
      var m := MatchAt(p[1..], s, e).value;
      TokenEndSpec(p[0], s, k);
      MatchAtSound(p[1..], s, e);
      DerivesCons(p, s, k, e, m.end, m.groups);
      MatchAtStep(p, s, k, e);
    }
  }

  datatype Found = Found(start: nat, m: Match)

  /** `re.search` from position `k` on: the first start where `MatchAt` succeeds. */
  function SearchFrom(p: seq<Token>, s: string, k: nat): (r: Option<Found>)
    requires k <= |s|
    ensures r.Some? ==> k <= r.value.start <= |s| && MatchAt(p, s, r.value.start) == Some(r.value.m)
    decreases |s| - k
  {
    var here := MatchAt(p, s, k);
    if here.Some? then Some(Found(k, here.value))
    else if k == |s| then None
    else SearchFrom(p, s, k + 1)
  }

  /** The search skips only start positions where `MatchAt` fails. */
  lemma {:induction false} SearchFromLeftmost(p: seq<Token>, s: string, k: nat)
    requires k <= |s|
    ensures var r := SearchFrom(p, s, k);
      forall i :: k <= i <= |s| && (r.None? || i < r.value.start) ==> MatchAt(p, s, i).None?
    decreases |s| - k
  {
    var r := SearchFrom(p, s, k);
    var here := MatchAt(p, s, k);
    if here.Some? {
      assert r == Some(Found(k, here.value));
    } else if k == |s| {
      assert r.None?;
    } else {
      SearchFromLeftmost(p, s, k + 1);
      var r' := SearchFrom(p, s, k + 1);
      assert r == r';
      forall i | k <= i <= |s| && (r.None? || i < r.value.start) ensures MatchAt(p, s, i).None? {
        if i > k {
          assert k + 1 <= i <= |s| && (r'.None? || i < r'.value.start);
        }
      }
    }
  }

  function Search(p: seq<Token>, s: string): Option<Found> {
    SearchFrom(p, s, 0)
  }

  /** `m.groups()` of `re.search(p, s)`, or `None` when it finds nothing. */
  function SearchGroups(p: seq<Token>, s: string): (r: Option<seq<string>>)
    ensures r.Some? <==> Search(p, s).Some?
    ensures r.Some? ==> r.value == Search(p, s).value.m.groups
  {
    match Search(p, s)
    case None => None
    case Some(f) => Some(f.m.groups)
  }

  /** Group `g + 1` of what `re.search` finds is text the `g`-th capturing
      token accepts. */
  lemma SearchGroupsTyped(p: seq<Token>, s: string)
    ensures SearchGroups(p, s).Some? ==>
      && |SearchGroups(p, s).value| == |CaptureTokens(p)|
      && forall g :: 0 <= g < |CaptureTokens(p)| ==> TokenAccepts(CaptureTokens(p)[g], SearchGroups(p, s).value[g])
  {
    if Search(p, s).Some? {
      var f := Search(p, s).value;
      MatchAtSound(p, s, f.start);
      DerivesGroups(p, s[f.start..f.m.end], f.m.groups);
    }
  }

  // ------------------------------------------- why no backtracking is needed

  /** The first character a token can match. */
  predicate TokenStartsWith(t: Token, c: char) {
    match t
    case Word(w) => |w| > 0 && SameLetter(c, w[0])
    case Either(a, b) => (|a| > 0 && SameLetter(c, a[0])) || (|b| > 0 && SameLetter(c, b[0]))
    case Spaces => IsSpace(c)
    case OneOf(cs) => c in cs
    case Lit(x) => c == x
    case Digits => IsDigit(c)
    case Number => IsDigit(c)
  }

  predicate Nullable(t: Token) { TokenAccepts(t, []) }

  /** A greedy token is never followed by one that could begin with a
      character the greedy token would take, or by one that matches
      nothing. */
  predicate Follows(t: Token, next: Token) {
    Greedy(t) ==> !Nullable(next) && forall c :: Extends(t, c) ==> !TokenStartsWith(next, c)
  }

  /** Every `(a|b)` is well formed and every token follows its predecessor
      as `Follows` demands. */
  predicate Separated(p: seq<Token>)
    decreases |p|
  {
    p == [] || (WellFormed(p[0]) && (|p| > 1 ==> Follows(p[0], p[1])) && Separated(p[1..]))
  }

  /** Patterns are checked token by token, from the back. */
  lemma SeparatedCons(t: Token, p: seq<Token>)
    requires WellFormed(t) && Separated(p) && (p != [] ==> Follows(t, p[0]))
    ensures Separated([t] + p)
    ensures CaptureTokens([t] + p) == (if Captures(t) then [t] else []) + CaptureTokens(p)
  {
    assert ([t] + p)[1..] == p;
  }

  lemma AcceptsStart(t: Token, u: string)
    requires TokenAccepts(t, u) && |u| > 0
    ensures TokenStartsWith(t, u[0])
  {
  }

  /** A match of a pattern whose first token cannot be empty starts with
      a character that token can begin with. */
  lemma DerivesStart(p: seq<Token>, s: string, a: nat, e: nat, caps: seq<string>)
    requires p != [] && !Nullable(p[0]) && a <= e <= |s| && Derives(p, s[a..e], caps)
    ensures a < e && TokenStartsWith(p[0], s[a])
  {
    var u := s[a..e];
    var j: nat :| j <= |u| && DerivesSplit(p, u, caps, j);
    assert j > 0;
    AcceptsStart(p[0], u[..j]);
    assert u[..j][0] == s[a];
  }

  /** Completeness of the greedy matcher: whenever the pattern matches from
      `k` in any way, `MatchAt` succeeds there, its match is at least as
      long, and a match of the same length has the same group texts. */
  lemma {:induction false} MatchAtComplete(p: seq<Token>, s: string, k: nat, e: nat, caps: seq<string>)
    requires Separated(p) && k <= e <= |s| && Derives(p, s[k..e], caps)
    ensures MatchAt(p, s, k).Some?
    ensures e <= MatchAt(p, s, k).value.end
    ensures e == MatchAt(p, s, k).value.end ==> caps == MatchAt(p, s, k).value.groups
    decreases |p|
  {
    if |p| == 1 {
      SingleTokenComplete(p, s, k, e, caps);
    } else if p != [] {
      var j, rest := DerivesFirst(p, s, k, e, caps);
      FirstTokenSplit(p, s, k, e, j, rest);
      SeparatedTail(p);
      MatchAtComplete(p[1..], s, k + j, e, rest);
      MatchAtStep(p, s, k, k + j);
    }
  }

  /** `MatchAtComplete` for a pattern of one token. */
  lemma SingleTokenComplete(p: seq<Token>, s: string, k: nat, e: nat, caps: seq<string>)
    requires |p| == 1 && Separated(p) && k <= e <= |s| && Derives(p, s[k..e], caps)
    ensures MatchAt(p, s, k).Some?
    ensures e <= MatchAt(p, s, k).value.end
    ensures e == MatchAt(p, s, k).value.end ==> caps == MatchAt(p, s, k).value.groups
  {
    var t := p[0];
    SingleDerives(p, s, k, e, caps);
    assert WellFormed(t);
    TokenEndSpec(t, s, k);
    var e1 := TokenEnd(t, s, k).value;
    MatchAtStep(p, s, k, e1);
    assert MatchAt(p[1..], s, e1) == Some(Match(e1, []));
  }

  /** The greedy matcher returns a given match exactly when the character
      after it could not have extended the last token. */
  lemma {:induction false} MatchAtExact(p: seq<Token>, s: string, k: nat, e: nat, caps: seq<string>)
    requires Separated(p) && k <= e <= |s| && Derives(p, s[k..e], caps)
    requires p != [] && e < |s| ==> !Extends(p[|p| - 1], s[e])
    ensures MatchAt(p, s, k) == Some(Match(e, caps))
    decreases |p|
  {
    if |p| == 1 {
      SingleTokenExact(p, s, k, e, caps);
    } else if p != [] {
      var j, rest := DerivesFirst(p, s, k, e, caps);
      FirstTokenSplit(p, s, k, e, j, rest);
      SeparatedTail(p);
      MatchAtExact(p[1..], s, k + j, e, rest);
      MatchAtCons(p, s, k, k + j, e, rest);
    }
  }

  /** The tokens after the first of a separated pattern are separated too. */
  lemma SeparatedTail(p: seq<Token>)
    requires Separated(p) && |p| > 1
    ensures Separated(p[1..]) && p[1..][|p[1..]| - 1] == p[|p| - 1]
  {
  }

  /** `MatchAtExact` for a pattern of one token. */
  lemma SingleTokenExact(p: seq<Token>, s: string, k: nat, e: nat, caps: seq<string>)
    requires |p| == 1 && Separated(p) && k <= e <= |s| && Derives(p, s[k..e], caps)
    requires e < |s| ==> !Extends(p[0], s[e])
    ensures MatchAt(p, s, k) == Some(Match(e, caps))
  {
    var t := p[0];
    SingleDerives(p, s, k, e, caps);
    assert WellFormed(t);
    LastTokenExact(t, s, k, e);
    MatchAtStep(p, s, k, e);
    assert p[1..] == [];
    assert MatchAt(p[1..], s, e) == Some(Match(e, []));
    assert caps + [] == caps;
  }

  /** A one-token pattern matches exactly the texts its token accepts. */
  lemma SingleDerives(p: seq<Token>, s: string, k: nat, e: nat, caps: seq<string>)
    requires |p| == 1 && k <= e <= |s| && Derives(p, s[k..e], caps)
    ensures TokenAccepts(p[0], s[k..e]) && caps == CaptureOf(p[0], s[k..e])
  {
    var u := s[k..e];
    var j: nat :| j <= |u| && DerivesSplit(p, u, caps, j);
    var c := CaptureOf(p[0], u[..j]);
    assert p[1..] == [];
    assert Derives(p[1..], u[j..], caps[|c|..]);
    assert u[j..] == [] && caps[|c|..] == [];
    assert u[..j] == u;
    assert caps == caps[..|c|] + caps[|c|..];
  }

  /** A match splits into the first token's text and a match of the rest. */
  lemma DerivesFirst(p: seq<Token>, s: string, k: nat, e: nat, caps: seq<string>) returns (j: nat, rest: seq<string>)
    requires p != [] && k <= e <= |s| && Derives(p, s[k..e], caps)
    ensures k + j <= e && TokenAccepts(p[0], s[k..k + j])
    ensures caps == CaptureOf(p[0], s[k..k + j]) + rest && Derives(p[1..], s[k + j..e], rest)
  {
    var u := s[k..e];
    j :| j <= |u| && DerivesSplit(p, u, caps, j);
    assert u[..j] == s[k..k + j];
    assert u[j..] == s[k + j..e];
    rest := caps[|CaptureOf(p[0], u[..j])|..];
  }

  /** In a match of a separated pattern, a token with a successor ends
      exactly where the greedy matcher ends it. */
  lemma FirstTokenSplit(p: seq<Token>, s: string, k: nat, e: nat, j: nat, rest: seq<string>)
    requires Separated(p) && |p| > 1 && k + j <= e <= |s|
    requires TokenAccepts(p[0], s[k..k + j]) && Derives(p[1..], s[k + j..e], rest)
    ensures TokenEnd(p[0], s, k) == Some(k + j)
  {
    var t := p[0];
    assert WellFormed(t);
    TokenEndSpec(t, s, k);
    var e1 := TokenEnd(t, s, k).value;
    if k + j < e1 {
      assert Greedy(t);
      assert Extends(t, s[k + j]);
      assert Follows(p[0], p[1]);
      DerivesStart(p[1..], s, k + j, e, rest);
      assert false;
    }
  }

  /** So does the last token, when the next character could not extend it. */
  lemma LastTokenExact(t: Token, s: string, k: nat, e: nat)
    requires WellFormed(t) && k <= e <= |s| && TokenAccepts(t, s[k..e])
    requires e < |s| ==> !Extends(t, s[e])
    ensures TokenEnd(t, s, k) == Some(e)
  {
    TokenEndSpec(t, s, k);
  }

  lemma MatchAtStep(p: seq<Token>, s: string, k: nat, e1: nat)
    requires p != [] && k <= e1 <= |s| && TokenEnd(p[0], s, k) == Some(e1)
    ensures MatchAt(p, s, k) == (match MatchAt(p[1..], s, e1)
      case None => None
      case Some(m) => Some(Match(m.end, CaptureOf(p[0], s[k..e1]) + m.groups)))
  {
  }

  /** The first token ending at `j` and the rest matching up to `e` make a
      match up to `e`. */
  lemma MatchAtCons(p: seq<Token>, s: string, k: nat, j: nat, e: nat, rest: seq<string>)
    requires p != [] && k <= j <= |s| && TokenEnd(p[0], s, k) == Some(j)
    requires MatchAt(p[1..], s, j) == Some(Match(e, rest))
    ensures MatchAt(p, s, k) == Some(Match(e, CaptureOf(p[0], s[k..j]) + rest))
  {
    MatchAtStep(p, s, k, j);
  }

  /** `re.search` reports a match at the very start whenever there is one. */
  lemma SearchAtStart(p: seq<Token>, s: string)
    requires MatchAt(p, s, 0).Some?
    ensures Search(p, s) == Some(Found(0, MatchAt(p, s, 0).value))
  {
  }

  /** `parts` glued together. */
  function Concat(parts: seq<string>): string
  {
    if parts == [] then [] else parts[0] + Concat(parts[1..])
  }

  /** The group texts of a match that splits as `parts`, token by token. */
  function CapturesOf(p: seq<Token>, parts: seq<string>): seq<string>
    requires |parts| == |p|
  {
    if p == [] then [] else CaptureOf(p[0], parts[0]) + CapturesOf(p[1..], parts[1..])
  }

  /** Each piece is text its token accepts on its own. */
  predicate Accepted(p: seq<Token>, parts: seq<string>) {
    |parts| == |p| && forall i :: 0 <= i < |p| ==> TokenAccepts(p[i], parts[i])
  }

  /** A pattern and a text cut into pieces can be split anywhere. */
  lemma PartsAppend(p: seq<Token>, q: seq<Token>, a: seq<string>, b: seq<string>)
    requires |a| == |p| && |b| == |q|
    ensures Concat(a + b) == Concat(a) + Concat(b)
    ensures CapturesOf(p + q, a + b) == CapturesOf(p, a) + CapturesOf(q, b)
  {
    ConcatAppend(a, b);
    CapturesAppend(p, q, a, b);
  }

  lemma {:induction false} ConcatAppend(a: seq<string>, b: seq<string>)
    ensures Concat(a + b) == Concat(a) + Concat(b)
  {
    if a == [] {
      assert a + b == b;
    } else {
      assert (a + b)[0] == a[0] && (a + b)[1..] == a[1..] + b;
      ConcatAppend(a[1..], b);
      assert Concat(a + b) == a[0] + Concat(a[1..] + b);
      AppendAssoc(a[0], Concat(a[1..]), Concat(b));
    }
  }

  lemma {:induction false} CapturesAppend(p: seq<Token>, q: seq<Token>, a: seq<string>, b: seq<string>)
    requires |a| == |p| && |b| == |q|
    ensures CapturesOf(p + q, a + b) == CapturesOf(p, a) + CapturesOf(q, b)
    decreases |p|
  {
    if p == [] {
      assert a + b == b && p + q == q;
    } else {
      var pq, ab := p + q, a + b;
      CapturesAppend(p[1..], q, a[1..], b);
      assert pq[0] == p[0] && pq[1..] == p[1..] + q;
      assert ab[0] == a[0] && ab[1..] == a[1..] + b;
      var c := CaptureOf(p[0], a[0]);
      var x, y := CapturesOf(p[1..], a[1..]), CapturesOf(q, b);
      assert CapturesOf(pq, ab) == c + CapturesOf(pq[1..], ab[1..]);
      assert CapturesOf(pq[1..], ab[1..]) == x + y;
      assert CapturesOf(p, a) == c + x;
      StringsAssoc(c, x, y);
    }
  }

  lemma StringsAssoc(a: seq<string>, b: seq<string>, c: seq<string>)
    ensures a + (b + c) == a + b + c
  {
  }

  lemma AcceptedAppend(p: seq<Token>, q: seq<Token>, a: seq<string>, b: seq<string>)
    requires Accepted(p, a) && Accepted(q, b)
    ensures Accepted(p + q, a + b)
  {
    forall i | 0 <= i < |p + q| ensures TokenAccepts((p + q)[i], (a + b)[i]) {
      if i >= |p| { assert (p + q)[i] == q[i - |p|] && (a + b)[i] == b[i - |p|]; }
    }
  }

  /** Two tokens and their two pieces. */
  lemma PartsPair(t: Token, u: Token, x: string, y: string)
    ensures Concat([x, y]) == x + y
    ensures CapturesOf([t, u], [x, y]) == CaptureOf(t, x) + CaptureOf(u, y)
    ensures TokenAccepts(t, x) && TokenAccepts(u, y) ==> Accepted([t, u], [x, y])
  {
    assert [x, y][1..] == [y] && [t, u][1..] == [u];
    PartsSingle(t, x);
    PartsSingle(u, y);
    assert Concat([y]) == y;
    assert CapturesOf([u], [y]) == CaptureOf(u, y);
  }

  /** One token and its piece. */
  lemma PartsSingle(t: Token, x: string)
    ensures Concat([x]) == x
    ensures CapturesOf([t], [x]) == CaptureOf(t, x)
    ensures TokenAccepts(t, x) ==> Accepted([t], [x])
  {
    assert [x][1..] == [] && [t][1..] == [];
    assert x + [] == x;
    assert CaptureOf(t, x) + [] == CaptureOf(t, x);
  }

  /** A text cut into pieces that the tokens accept one by one is a match. */
  lemma {:induction false} DerivesOfParts(p: seq<Token>, parts: seq<string>)
    requires Accepted(p, parts)
    ensures Derives(p, Concat(parts), CapturesOf(p, parts))
    decreases |p|
  {
    if p != [] {
      DerivesOfParts(p[1..], parts[1..]);
      var u := Concat(parts);
      var caps := CapturesOf(p, parts);
      var j := |parts[0]|;
      var c := CaptureOf(p[0], parts[0]);
      assert u[..j] == parts[0] && u[j..] == Concat(parts[1..]);
      assert caps[..|c|] == c && caps[|c|..] == CapturesOf(p[1..], parts[1..]);
      assert DerivesSplit(p, u, caps, j);
    }
  }

  /** The match `re.search` is after: it starts at the leftmost position
      where the pattern matches at all, it is the longest match from there,
      and no other match of that length has different group texts. */
  ghost predicate IsLeftmostLongest(p: seq<Token>, s: string, start: nat, e: nat, caps: seq<string>) {
    && start <= e <= |s| && Derives(p, s[start..e], caps)
    && (forall k: nat :: k < start ==> !MatchesAt(p, s, k))
    && (forall e': nat, caps' :: start <= e' <= |s| && Derives(p, s[start..e'], caps') ==>
          e' <= e && (e' == e ==> caps' == caps))
  }

  /** There is at most one such match. */
  lemma LeftmostLongestUnique(p: seq<Token>, s: string, start1: nat, e1: nat, caps1: seq<string>,
                              start2: nat, e2: nat, caps2: seq<string>)
    requires IsLeftmostLongest(p, s, start1, e1, caps1) && IsLeftmostLongest(p, s, start2, e2, caps2)
    ensures start1 == start2 && e1 == e2 && caps1 == caps2
  {
    assert MatchesAt(p, s, start1) && MatchesAt(p, s, start2);
  }

  /** `Search` is `re.search`: it fails exactly when the pattern matches
      nowhere, and otherwise reports the leftmost-longest match. */
  lemma SearchFindsLeftmostLongest(p: seq<Token>, s: string)
    requires Separated(p)
    ensures Search(p, s).None? <==> forall k: nat :: k <= |s| ==> !MatchesAt(p, s, k)
    ensures Search(p, s).Some? ==>
      IsLeftmostLongest(p, s, Search(p, s).value.start, Search(p, s).value.m.end, Search(p, s).value.m.groups)
  {
    SearchFromLeftmost(p, s, 0);
    forall k: nat | k <= |s| && MatchesAt(p, s, k) ensures MatchAt(p, s, k).Some? {
      var e: nat, caps :| k <= e <= |s| && Derives(p, s[k..e], caps);
      MatchAtComplete(p, s, k, e, caps);
    }
    match Search(p, s)
    case None =>
    case Some(f) =>
      var m := f.m;
      MatchAtSound(p, s, f.start);
      assert MatchesAt(p, s, f.start);
      forall e: nat, caps | f.start <= e <= |s| && Derives(p, s[f.start..e], caps)
        ensures e <= m.end && (e == m.end ==> caps == m.groups)
      {
        MatchAtComplete(p, s, f.start, e, caps);
      }
  }

  /** A text that starts with pieces the tokens accept one by one, followed
      by nothing that could extend the last token, is found at its start,
      with the pieces' group texts. */
  lemma SearchOfParts(p: seq<Token>, parts: seq<string>, rest: string)
    requires Separated(p) && p != [] && Accepted(p, parts)
    requires rest != [] ==> !Extends(p[|p| - 1], rest[0])
    ensures Search(p, Concat(parts) + rest) == Some(Found(0, Match(|Concat(parts)|, CapturesOf(p, parts))))
  {
    var u := Concat(parts);
    var s := u + rest;
    DerivesOfParts(p, parts);
    assert s[0..|u|] == u;
    MatchAtExact(p, s, 0, |u|, CapturesOf(p, parts));
    SearchAtStart(p, s);
  }

  /** `SearchOfParts` for a pattern written as a head and a tail, each with
      its own pieces. */
  lemma SearchOfHeadAndTail(head: seq<Token>, tail: seq<Token>, headParts: seq<string>, tailParts: seq<string>,
                            rest: string)
    requires Separated(head + tail) && tail != []
    requires Accepted(head, headParts) && Accepted(tail, tailParts)
    requires rest != [] ==> !Extends(tail[|tail| - 1], rest[0])
    ensures SearchGroups(head + tail, Concat(headParts) + Concat(tailParts) + rest)
      == Some(CapturesOf(head, headParts) + CapturesOf(tail, tailParts))
  {
    PartsAppend(head, tail, headParts, tailParts);
    AcceptedAppend(head, tail, headParts, tailParts);
    assert (head + tail)[|head + tail| - 1] == tail[|tail| - 1];
    SearchOfParts(head + tail, headParts + tailParts, rest);
  }
}
