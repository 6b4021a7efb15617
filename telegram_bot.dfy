/** The deterministic rules of `bot/telegram_bot.py`: the onboarding
    validators, the parsing of button data, the flag state machine that
    `handle_text` drives through the user store, and the splitting of long
    replies. Replies, translation, documents, voice and the agents
    themselves are not modelled; only what the bot stores and sends is. */
module TelegramBot {
  import opened Options
  import opened Text
  import opened Numerals
  import Helpers
  import DietAgent

  // ------------------------------------------------------------- profiles

  /** A field of a stored user document. */
  datatype Value =
    | Null
    | Bool(b: bool)
    | Int(i: int)
    | Str(s: string)
    | List(items: seq<string>)

  /** Python truthiness, as in `if user_profile.get(...)`. */
  predicate Truthy(v: Value) {
    match v
    case Null => false
    case Bool(b) => b
    case Int(i) => i != 0
    case Str(s) => s != []
    case List(l) => l != []
  }

  /** The document fields the bot reads and writes, and any other key. */
  datatype Field =
    | UserId                 // "user_id"
    | Language               // "language"
    | Name                   // "name"
    | Age                    // "age"
    | Allergies              // "allergies"
    | AwaitingName           // "awaiting_name"
    | AwaitingAge            // "awaiting_age"
    | AwaitingAllergies      // "awaiting_allergies"
    | AwaitingDietPlanChoice // "awaiting_diet_plan_choice"
    | AwaitingDietReport     // "awaiting_diet_report"
    | AwaitingDietCondition  // "awaiting_diet_condition"
    | Other(key: string)

  /** A user document: field to value. */
  type Profile = map<Field, Value>

  /** `profile.get(key)`: `None` for a missing field. */
  function Get(p: Profile, key: Field): Value {
    if key in p then p[key] else Null
  }

  /** The field is present and truthy. */
  predicate Flag(p: Profile, key: Field) {
    Truthy(Get(p, key))
  }

  /** An update with `$set`: the given fields are overwritten or added, every
      other field keeps its value. */
  function Merge(p: Profile, fields: Profile): (r: Profile)
    ensures r.Keys == p.Keys + fields.Keys
    ensures forall k :: k in fields ==> r[k] == fields[k]
    ensures forall k :: k in p && k !in fields ==> r[k] == p[k]
  {
    p + fields
  }

  /** The `users` collection, keyed by the `user_id` field. */
  type Users = map<Value, Profile>

  /** `get_user`: the stored document, or `{}` for an unknown user. */
  function Lookup(users: Users, id: Value): Profile {
    if id in users then users[id] else map[]
  }

  /** `save_user`: without a truthy `user_id` nothing is written; otherwise
      the document with that id is updated field by field, or created. */
  function Saved(users: Users, data: Profile): (r: Users)
    ensures UserId !in data || !Truthy(data[UserId]) ==> r == users
    ensures UserId in data && Truthy(data[UserId]) ==>
      r.Keys == users.Keys + {data[UserId]}
      && r[data[UserId]] == Merge(Lookup(users, data[UserId]), data)
      && forall id :: id in users && id != data[UserId] ==> r[id] == users[id]
  {
    if UserId in data && Truthy(data[UserId]) then
      users[data[UserId] := Merge(Lookup(users, data[UserId]), data)]
    else users
  }

  /** The store after an optional save. */
  function Apply(users: Users, update: Option<Profile>): Users {
    match update
    case None => users
    case Some(data) => Saved(users, data)
  }

  /** The profile after an optional update of its fields. */
  function Updated(p: Profile, update: Option<Profile>): Profile {
    match update
    case None => p
    case Some(data) => Merge(p, data)
  }

  /** An update the bot makes always names the user it is for, so saving it
      changes that user's document as `Updated` says, and no other. */
  lemma SaveForUser(users: Users, uid: string, update: Option<Profile>)
    requires uid != []
    requires update.Some? ==> UserId in update.value && update.value[UserId] == Str(uid)
    ensures Lookup(Apply(users, update), Str(uid)) == Updated(Lookup(users, Str(uid)), update)
    ensures forall id :: id in users && id != Str(uid) ==> Lookup(Apply(users, update), id) == users[id]
  {
  }

  /** The test `start` uses to greet a returning user instead of offering the
      language buttons: language and name set, an age stored, allergies not
      `None`. */
  function Registered(p: Profile): (ok: bool)
    ensures ok ==> TextBranch(p) != NoLanguage
    ensures ok ==> Language in p && Name in p && Age in p && Allergies in p
  {
    Flag(p, Language) && Flag(p, Name) && Age in p && Get(p, Allergies) != Null
  }

  // ----------------------------------------------------------- validators

  /** A name is 1 to 50 characters, ASCII letters or whitespace; the text it
      is tested on has already been stripped. */
  predicate NameAccepted(text: string) {
    1 <= |text| <= 50 && forall i :: 0 <= i < |text| ==> IsLetter(text[i]) || IsSpace(text[i])
  }

  /** Which names pass depends only on their length and on which characters
      they contain, not on where those characters stand. */
  lemma NameCharacters(text: string)
    ensures NameAccepted(text) <==> 1 <= |text| <= 50 && forall c :: c in text ==> IsLetter(c) || IsSpace(c)
  {
  }

  /** An accepted (stripped) name begins and ends with a letter. */
  lemma NameShape(message: string)
    requires NameAccepted(Strip(message))
    ensures var t := Strip(message); IsLetter(t[0]) && IsLetter(t[|t| - 1])
  {
  }

  /** The age in a message: `int(text)` in the range 0 to 120. */
  function AgeOf(text: string): (age: Option<int>)
    ensures age.Some? <==> ParseInt(text).Some? && 0 <= ParseInt(text).value <= 120
    ensures age.Some? ==> age == ParseInt(text)
  {
    match ParseInt(text)
    case None => None
    case Some(n) => if 0 <= n <= 120 then Some(n) else None
  }

  /** Every age the bot accepts can be typed as plain digits, and is read
      back as itself. */
  lemma AgeRoundTrip(n: nat)
    requires n <= 120
    ensures AgeOf(Show(n)) == Some(n)
  {
    ParseIntShow(n);
  }

  /** One allergy: 1 to 50 characters, ASCII letters or whitespace. */
  predicate IsAllergy(item: string) {
    0 < |item| <= 50 && forall i :: 0 <= i < |item| ==> IsLetter(item[i]) || IsSpace(item[i])
  }

  lemma LowerAllergy(s: string)
    requires IsAllergy(s) && IsStripped(s)
    ensures IsAllergy(Lower(s)) && IsStripped(Lower(s)) && IsLowerCase(Lower(s))
  {
    LowerIsLowerCase(s);
    ToLowerKeepsSpace(s[0]);
    ToLowerKeepsSpace(s[|s| - 1]);
    forall i | 0 <= i < |s|
      ensures IsLetter(Lower(s)[i]) || IsSpace(Lower(s)[i])
    {
      ToLowerKeepsSpace(s[i]);
    }
  }

  /** The comma-separated items, stripped; the valid ones lower-cased, in
      their order, the others dropped. */
  function KeptAllergies(items: seq<string>): (r: seq<string>)
    ensures |r| <= |items|
    ensures forall k :: 0 <= k < |r| ==> IsAllergy(r[k]) && IsLowerCase(r[k]) && IsStripped(r[k])
  {
    if items == [] then [] else KeptItem(items[0]) + KeptAllergies(items[1..])
  }

  /** What one item contributes: itself stripped and lower-cased if valid. */
  function KeptItem(item: string): (r: seq<string>)
    ensures |r| <= 1
    ensures forall k :: 0 <= k < |r| ==> IsAllergy(r[k]) && IsLowerCase(r[k]) && IsStripped(r[k])
  {
    var s := Strip(item);
    if IsAllergy(s) then
      LowerAllergy(s);
      [Lower(s)]
    else []
  }

  /** The allergy list stored for a message: empty for "none" in any case. */
  function ParseAllergies(text: string): (r: seq<string>)
    ensures Lower(text) == "none" ==> r == []
    ensures Lower(text) != "none" ==> r == KeptAllergies(Split(text, ','))
    ensures forall k :: 0 <= k < |r| ==> IsAllergy(r[k]) && IsLowerCase(r[k]) && IsStripped(r[k])
  {
    if Lower(text) == "none" then [] else KeptAllergies(Split(text, ','))
  }

  /** The items are judged one at a time: the list kept from two runs of
      items is the two kept lists, in order; a single item is kept, stripped
      and lower-cased, exactly when it is valid once stripped. */
  lemma KeptAllergiesPerItem(a: seq<string>, b: seq<string>, x: string)
    ensures KeptAllergies(a + b) == KeptAllergies(a) + KeptAllergies(b)
    ensures KeptAllergies([x]) == if IsAllergy(Strip(x)) then [Lower(Strip(x))] else []
  {
    KeptAllergiesAppend(a, b);
    assert [x][1..] == [];
    assert KeptAllergies([x]) == KeptItem(x) + KeptAllergies([]);
  }

  lemma {:induction false} KeptAllergiesAppend(a: seq<string>, b: seq<string>)
    ensures KeptAllergies(a + b) == KeptAllergies(a) + KeptAllergies(b)
  {
    if a == [] {
      assert a + b == b;
    } else {
      var x, y, z := KeptItem(a[0]), KeptAllergies(a[1..]), KeptAllergies(b);
      TailOfAppend(a, b);
      assert KeptAllergies(a + b) == x + KeptAllergies(a[1..] + b);
      KeptAllergiesAppend(a[1..], b);
      ListsAssoc(x, y, z);
    }
  }

  lemma ListsAssoc<T>(x: seq<T>, y: seq<T>, z: seq<T>)
    ensures x + (y + z) == (x + y) + z
  {
  }

  lemma TailOfAppend<T>(a: seq<T>, b: seq<T>)
    requires a != []
    ensures (a + b)[0] == a[0] && (a + b)[1..] == a[1..] + b
  {
  }

  /** An allergy is kept exactly when some item, stripped, is valid and reads
      the same lower-cased. */
  lemma {:induction false} KeptAllergiesMembers(items: seq<string>, x: string)
    ensures x in KeptAllergies(items) <==>
      exists k :: 0 <= k < |items| && IsAllergy(Strip(items[k])) && x == Lower(Strip(items[k]))
  {
    if items != [] {
      KeptAllergiesMembers(items[1..], x);
      if x in KeptAllergies(items[1..]) {
        var k :| 0 <= k < |items[1..]| && IsAllergy(Strip(items[1..][k])) && x == Lower(Strip(items[1..][k]));
        assert items[k + 1] == items[1..][k];
      }
      if exists k :: 0 <= k < |items| && IsAllergy(Strip(items[k])) && x == Lower(Strip(items[k])) {
        var k :| 0 <= k < |items| && IsAllergy(Strip(items[k])) && x == Lower(Strip(items[k]));
        if k > 0 {
          assert items[1..][k - 1] == items[k];
        }
      }
    }
  }

  /** Valid, lower-case, stripped items pass through unchanged. */
  lemma {:induction false} KeptAllergiesOfValid(items: seq<string>)
    requires forall k :: 0 <= k < |items| ==> IsAllergy(items[k]) && IsLowerCase(items[k]) && IsStripped(items[k])
    ensures KeptAllergies(items) == items
  {
    if items != [] {
      StripOfStripped(items[0]);
      LowerOfLowerCase(items[0]);
      KeptAllergiesOfValid(items[1..]);
    }
  }

  lemma {:induction false} JoinLowerCase(parts: seq<string>, sep: char)
    requires |parts| >= 1 && ToLower(sep) == sep
    requires forall k :: 0 <= k < |parts| ==> IsLowerCase(parts[k])
    ensures IsLowerCase(Join(parts, sep))
  {
    if |parts| > 1 {
      JoinLowerCase(parts[1..], sep);
    }
  }

  /** An allergy contains no comma. */
  lemma AllergyHasNoComma(s: string)
    requires IsAllergy(s)
    ensures ',' !in s
  {
    forall i | 0 <= i < |s|
      ensures s[i] != ','
    {
      assert IsLetter(s[i]) || IsSpace(s[i]);
    }
  }

  /** A comma-joined list reads "none" only if it is that one word. */
  lemma JoinedNone(names: seq<string>)
    requires |names| >= 1 && names != ["none"]
    ensures Join(names, ',') != "none"
  {
    if |names| > 1 {
      var text := Join(names, ',');
      assert text == names[0] + [','] + Join(names[1..], ',');
      assert text[|names[0]|] == ',';
    }
  }

  /** Writing a list of allergies with commas and reading it back gives the
      list again, unless the list is just "none". */
  lemma AllergyRoundTrip(names: seq<string>)
    requires |names| >= 1 && names != ["none"]
    requires forall k :: 0 <= k < |names| ==> IsAllergy(names[k]) && IsLowerCase(names[k]) && IsStripped(names[k])
    ensures ParseAllergies(Join(names, ',')) == names
  {
    var text := Join(names, ',');
    forall k | 0 <= k < |names|
      ensures ',' !in names[k]
    {
      AllergyHasNoComma(names[k]);
    }
    SplitJoin(names, ',');
    JoinLowerCase(names, ',');
    LowerOfLowerCase(text);
    JoinedNone(names);
    KeptAllergiesOfValid(names);
  }

  /** `extract_condition_from_text`: "diabetes" when the text mentions it in
      any case, otherwise nothing. */
  function ExtractCondition(text: string): (r: Option<string>)
    ensures r.Some? <==> Contains(Lower(text), "diabetes")
    ensures r.Some? ==> r.value == "diabetes"
  {
    if Contains(Lower(text), "diabetes") then Some("diabetes") else None
  }

  /** The condition found in a report is already in the form the diet agent
      normalises to, and does not depend on letter case. */
  lemma ExtractedConditionIsCanonical(text: string)
    ensures ExtractCondition(text).Some? ==>
      DietAgent.NormalizeCondition(ExtractCondition(text).value) == ExtractCondition(text).value
    ensures ExtractCondition(Lower(text)) == ExtractCondition(text)
  {
    LowerIsLowerCase(text);
    LowerOfLowerCase("diabetes");
    StripOfStripped("diabetes");
    DietAgent.SynonymTable();
  }

  // ------------------------------------------------------ long messages

  /** Telegram's limit on one message, the default `max_length`. */
  const MessageLimit: nat := 4096

  /** The messages a reply is sent as: the text itself when it fits, else
      consecutive slices of `size` characters. */
  function Chunks(text: string, size: nat): (parts: seq<string>)
    requires size > 0
    ensures |parts| >= 1
    decreases |text|
  {
    if |text| <= size then [text] else [text[..size]] + Chunks(text[size..], size)
  }

  /** The messages glued back together. */
  function Joined(parts: seq<string>): string {
    if parts == [] then [] else parts[0] + Joined(parts[1..])
  }

  /** The slices give back the text; a text that fits is sent whole. */
  lemma {:induction false} ChunksJoin(text: string, size: nat)
    requires size > 0
    ensures Joined(Chunks(text, size)) == text
    ensures |text| <= size ==> Chunks(text, size) == [text]
    decreases |text|
  {
    if |text| > size {
      var rest := text[size..];
      ChunksJoin(rest, size);
      var parts := Chunks(text, size);
      assert parts[1..] == Chunks(rest, size);
      assert text[..size] + rest == text;
    }
  }

  /** All slices but the last are full; the last is empty only for the
      empty text. */
  lemma {:induction false} ChunksFull(text: string, size: nat)
    requires size > 0
    ensures forall k :: 0 <= k < |Chunks(text, size)| - 1 ==> |Chunks(text, size)[k]| == size
    ensures var last := Chunks(text, size)[|Chunks(text, size)| - 1];
      0 < |last| <= size || text == []
    decreases |text|
  {
    if |text| > size {
      var rest := text[size..];
      ChunksFull(rest, size);
      var parts := Chunks(text, size);
      assert parts[1..] == Chunks(rest, size);
      forall k | 1 <= k < |parts| - 1
        ensures |parts[k]| == size
      {
        assert parts[k] == Chunks(rest, size)[k - 1];
      }
    }
  }

  /** There are as many slices as the length over the size, rounded up:
      one fewer would not hold the text, and these do. */
  lemma {:induction false} ChunksCount(text: string, size: nat)
    requires size > 0 && text != []
    ensures (|Chunks(text, size)| - 1) * size < |text| <= |Chunks(text, size)| * size
    decreases |text|
  {
    if |text| > size {
      var rest := text[size..];
      ChunksCount(rest, size);
      var parts := Chunks(text, size);
      assert parts[1..] == Chunks(rest, size);
      var m := |Chunks(rest, size)|;
      assert (m + 1) * size == m * size + size;
      assert m * size == (m - 1) * size + size;
    }
  }

  /** `send_long_message`: the messages sent, in order. */
  method SendLongMessage(text: string, maxLength: nat) returns (sent: seq<string>)
    requires maxLength > 0
    ensures sent == Chunks(text, maxLength)
  {
    if |text| <= maxLength {
      sent := [text];
      return;
    }
    sent := [];
    var i := 0;
    while i < |text|
      invariant 0 <= i
      invariant i < |text| ==> sent + Chunks(text[i..], maxLength) == Chunks(text, maxLength)
      invariant i >= |text| ==> sent == Chunks(text, maxLength)
      decreases |text| - i
    {
      var rest := text[i..];
      if |rest| > maxLength {
        assert Chunks(rest, maxLength) == [text[i..i + maxLength]] + Chunks(text[i + maxLength..], maxLength) by {
          assert rest[..maxLength] == text[i..i + maxLength];
          assert rest[maxLength..] == text[i + maxLength..];
        }
        sent := sent + [text[i..i + maxLength]];
      } else {
        assert text[i..|text|] == rest;
        sent := sent + [text[i..|text|]];
      }
      i := i + maxLength;
    }
  }

  // ------------------------------------------------------------- buttons

  /** What a button's callback data asks for. */
  datatype Callback = SelectLanguage(code: string) | Action(name: string) | Unrecognised

  /** The language buttons `start` offers, one per table entry. */
  function LanguageButton(code: string): string {
    "lang_" + code
  }

  /** The choices of the main menu `start` offers a registered user. */
  const MenuActions: seq<string> := ["queries", "prediction", "diet_plan", "prescription"]

  /** The data of a main menu button. */
  function MenuButton(action: string): string {
    "action_" + action
  }

  /** Button data of either kind is told apart by its first letter. */
  lemma ButtonPrefixes(x: string)
    ensures StartsWith(LanguageButton(x), "lang_") && !StartsWith(LanguageButton(x), "action_")
    ensures StartsWith(MenuButton(x), "action_") && !StartsWith(MenuButton(x), "lang_")
    ensures LanguageButton(x)[5..] == x && MenuButton(x)[7..] == x
  {
    assert LanguageButton(x)[0] == 'l' && LanguageButton(x)[..5] == "lang_";
    assert MenuButton(x)[0] == 'a' && MenuButton(x)[..7] == "action_";
  }

  /** As written: the parameter is `data.split("_")[1]`, the text after the
      first underscore up to the next one. */
  function ParseCallbackAsWritten(data: string): (cb: Callback)
    ensures StartsWith(data, "lang_") ==> cb == SelectLanguage(Split(data[5..], '_')[0])
    ensures !StartsWith(data, "lang_") && StartsWith(data, "action_") ==> cb == Action(Split(data[7..], '_')[0])
    ensures !StartsWith(data, "lang_") && !StartsWith(data, "action_") ==> cb == Unrecognised
  {
    if StartsWith(data, "lang_") then
      assert data == "lang" + ['_'] + data[5..];
      SplitPrefix("lang", data[5..], '_');
      SelectLanguage(Split(data, '_')[1])
    else if StartsWith(data, "action_") then
      assert data == "action" + ['_'] + data[7..];
      SplitPrefix("action", data[7..], '_');
      Action(Split(data, '_')[1])
    else Unrecognised
  }

  /** Corrected: the parameter is everything after the prefix
      (`data.split("_", 1)[1]`). */
  function ParseCallback(data: string): (cb: Callback)
    ensures StartsWith(data, "lang_") ==> cb == SelectLanguage(data[5..]) && LanguageButton(cb.code) == data
    ensures !StartsWith(data, "lang_") && StartsWith(data, "action_") ==> cb == Action(data[7..]) && "action_" + cb.name == data
    ensures !StartsWith(data, "lang_") && !StartsWith(data, "action_") ==> cb == Unrecognised
  {
    if StartsWith(data, "lang_") then
      assert data == data[..5] + data[5..];
      SelectLanguage(data[5..])
    else if StartsWith(data, "action_") then
      assert data == data[..7] + data[7..];
      Action(data[7..])
    else Unrecognised
  }

  /** Both parsers agree whenever the parameter has no underscore of its own,
      as every language code has. */
  lemma ParsersAgree(data: string)
    requires StartsWith(data, "lang_") ==> '_' !in data[5..]
    requires StartsWith(data, "action_") ==> '_' !in data[7..]
    ensures ParseCallbackAsWritten(data) == ParseCallback(data)
  {
    if StartsWith(data, "lang_") {
      SplitWhole(data[5..], '_');
    } else if StartsWith(data, "action_") {
      SplitWhole(data[7..], '_');
    }
  }

  /** The fields saved when a language is chosen. */
  function LanguageChoice(uid: string, code: string): Profile {
    map[UserId := Str(uid), Language := Str(code), AwaitingName := Bool(true),
        AwaitingAge := Bool(false), AwaitingAllergies := Bool(false)]
  }

  /** The fields saved when the diet plan menu is offered. */
  function DietChoicePrompt(uid: string): Profile {
    map[UserId := Str(uid), AwaitingDietPlanChoice := Bool(true)]
  }

  /** `button` as written: the "no language" guard comes first, and the
      parameter is parsed with `split("_")[1]`. */
  function CallbackUpdateAsWritten(p: Profile, uid: string, data: string): (update: Option<Profile>)
    ensures update.Some? ==> Flag(p, Language)
  {
    if !Flag(p, Language) then None
    else match ParseCallbackAsWritten(data)
      case SelectLanguage(code) => if code in Helpers.LanguageMap then Some(LanguageChoice(uid, code)) else None
      case Action(name) => if name == "diet_plan" then Some(DietChoicePrompt(uid)) else None
      case Unrecognised => None
  }

  /** `button` as evidently intended: choosing a language needs no language
      yet, and the whole parameter names the choice. */
  function CallbackUpdate(p: Profile, uid: string, data: string): (update: Option<Profile>)
    ensures update.Some? && ParseCallback(data).Action? ==> Flag(p, Language)
  {
    match ParseCallback(data)
    case SelectLanguage(code) => if code in Helpers.LanguageMap then Some(LanguageChoice(uid, code)) else None
    case Action(name) => if Flag(p, Language) && name == "diet_plan" then Some(DietChoicePrompt(uid)) else None
    case Unrecognised => None
  }

  /** As written, a user without a stored language, which is every new user
      looking at the language buttons, changes nothing with any button. */
  lemma NewUserCannotChooseLanguage(uid: string, code: string)
    ensures CallbackUpdateAsWritten(map[], uid, LanguageButton(code)) == None
    ensures !Registered(map[])
  {
  }

  /** As written, the diet plan button's parameter is "diet", which matches
      no choice, so the button does nothing. */
  lemma DietPlanButtonIgnored(p: Profile, uid: string)
    ensures ParseCallbackAsWritten(MenuButton("diet_plan")) == Action("diet")
    ensures CallbackUpdateAsWritten(p, uid, MenuButton("diet_plan")) == None
  {
    DietPlanParsedAsWritten();
    assert "diet" != "diet_plan" by { assert |"diet"| != |"diet_plan"|; }
  }

  lemma DietPlanParsedAsWritten()
    ensures ParseCallbackAsWritten(MenuButton("diet_plan")) == Action("diet")
  {
    var d := MenuButton("diet_plan");
    ButtonPrefixes("diet_plan");
    assert d[7..] == "diet" + ['_'] + "plan";
    SplitPrefix("diet", "plan", '_');
    assert Split(d[7..], '_')[0] == "diet";
  }

  /** Corrected: a language button is accepted exactly when its code is in
      the table, whatever the profile holds, and starts the name question. */
  lemma LanguageSelection(p: Profile, uid: string, code: string)
    ensures CallbackUpdate(p, uid, LanguageButton(code)).Some? <==> code in Helpers.LanguageMap
    ensures code in Helpers.LanguageMap ==>
      var q := Updated(p, CallbackUpdate(p, uid, LanguageButton(code)));
      Get(q, Language) == Str(code) && Flag(q, AwaitingName)
      && !Flag(q, AwaitingAge) && !Flag(q, AwaitingAllergies)
  {
    ButtonPrefixes(code);
  }

  /** Corrected: every menu button is read as its own choice, and the diet
      plan button of a user with a language asks for the diet choice. */
  lemma MenuButtonsParsed(p: Profile, uid: string)
    ensures forall k :: 0 <= k < |MenuActions| ==> ParseCallback(MenuButton(MenuActions[k])) == Action(MenuActions[k])
    ensures Flag(p, Language) ==> CallbackUpdate(p, uid, MenuButton("diet_plan")) == Some(DietChoicePrompt(uid))
  {
    forall k | 0 <= k < |MenuActions|
      ensures ParseCallback(MenuButton(MenuActions[k])) == Action(MenuActions[k])
    {
      ButtonPrefixes(MenuActions[k]);
    }
    ButtonPrefixes("diet_plan");
  }

  /** `/dietplan`: with a language stored, the diet choice is awaited. */
  function DietPlanUpdate(p: Profile, uid: string): (update: Option<Profile>)
    ensures update.Some? <==> Flag(p, Language)
  {
    if Flag(p, Language) then Some(DietChoicePrompt(uid)) else None
  }

  // ------------------------------------------------------------ messages

  /** Which part of `handle_text` a message goes to. */
  datatype Branch = NoLanguage | DietChoice | NameInput | AgeInput | AllergyInput | DietCondition | GeneralQuery

  /** Without a language nothing happens; otherwise the first flag that is set,
      in this order, decides; with none set the text is a general query. */
  function TextBranch(p: Profile): (b: Branch)
    ensures b == NoLanguage <==> !Flag(p, Language)
    ensures b == GeneralQuery <==>
      (Flag(p, Language) && !Flag(p, AwaitingDietPlanChoice)
       && !Flag(p, AwaitingName) && !Flag(p, AwaitingAge) && !Flag(p, AwaitingAllergies)
       && !Flag(p, AwaitingDietCondition))
  {
    if !Flag(p, Language) then NoLanguage
    else if Flag(p, AwaitingDietPlanChoice) then DietChoice
    else if Flag(p, AwaitingName) then NameInput
    else if Flag(p, AwaitingAge) then AgeInput
    else if Flag(p, AwaitingAllergies) then AllergyInput
    else if Flag(p, AwaitingDietCondition) then DietCondition
    else GeneralQuery
  }

  /** The fields saved for the diet plan choice "1", "2" or "3". */
  function DietChoiceFields(uid: string, choice: string): Option<Profile> {
    if choice == "1" then
      Some(map[UserId := Str(uid), AwaitingDietReport := Bool(true), AwaitingDietPlanChoice := Bool(false)])
    else if choice == "2" then
      Some(map[UserId := Str(uid), AwaitingDietCondition := Bool(true), AwaitingDietPlanChoice := Bool(false)])
    else if choice == "3" then
      Some(map[UserId := Str(uid), AwaitingDietPlanChoice := Bool(false)])
    else None
  }

  /** The fields saved for an accepted name. */
  function NameFields(p: Profile, uid: string, name: string): Profile {
    map[UserId := Str(uid), Language := Get(p, Language), Name := Str(name),
        AwaitingName := Bool(false), AwaitingAge := Bool(true)]
  }

  /** The fields saved for an accepted age. */
  function AgeFields(p: Profile, uid: string, age: int): Profile {
    map[UserId := Str(uid), Language := Get(p, Language), Name := Get(p, Name),
        Age := Int(age), AwaitingAge := Bool(false), AwaitingAllergies := Bool(true)]
  }

  /** The fields saved with the allergy list. */
  function AllergyFields(p: Profile, uid: string, allergies: seq<string>): Profile {
    map[UserId := Str(uid), Language := Get(p, Language), Name := Get(p, Name),
        Age := Get(p, Age), Allergies := List(allergies), AwaitingAllergies := Bool(false)]
  }

  /** The fields saved once a diet plan for a condition has been produced. */
  function ConditionFields(uid: string): Profile {
    map[UserId := Str(uid), AwaitingDietCondition := Bool(false)]
  }

  /** The fields `handle_text` saves for a message, if any. The diet agent
      and the interaction log are assumed to return normally. */
  function TextUpdate(p: Profile, uid: string, message: string): (update: Option<Profile>)
    ensures update.Some? ==> UserId in update.value && update.value[UserId] == Str(uid)
    ensures TextBranch(p) == NoLanguage || TextBranch(p) == GeneralQuery ==> update.None?
  {
    var text := Strip(message);
    match TextBranch(p)
    case NoLanguage => None
    case DietChoice => DietChoiceFields(uid, text)
    case NameInput => if NameAccepted(text) then Some(NameFields(p, uid, text)) else None
    case AgeInput =>
      (match AgeOf(text)
       case None => None
       case Some(age) => Some(AgeFields(p, uid, age)))
    case AllergyInput => Some(AllergyFields(p, uid, ParseAllergies(text)))
    case DietCondition => Some(ConditionFields(uid))
    case GeneralQuery => None
  }

  /** Reading a field after an update. */
  lemma GetMerged(p: Profile, fields: Profile)
    ensures forall f :: Get(Merge(p, fields), f) == if f in fields then fields[f] else Get(p, f)
  {
  }

  /** What saving the name fields does to a profile. */
  lemma NameMerge(p: Profile, uid: string, name: string)
    ensures var q := Merge(p, NameFields(p, uid, name));
      Get(q, Name) == Str(name) && !Flag(q, AwaitingName) && Flag(q, AwaitingAge)
      && Get(q, Language) == Get(p, Language)
    ensures var q := Merge(p, NameFields(p, uid, name));
      forall f :: f !in {UserId, Name, AwaitingName, AwaitingAge} ==> Get(q, f) == Get(p, f)
  {
    GetMerged(p, NameFields(p, uid, name));
  }

  /** What saving the age fields does to a profile. */
  lemma AgeMerge(p: Profile, uid: string, age: int)
    ensures var q := Merge(p, AgeFields(p, uid, age));
      Get(q, Age) == Int(age) && !Flag(q, AwaitingAge) && Flag(q, AwaitingAllergies)
    ensures var q := Merge(p, AgeFields(p, uid, age));
      forall f :: f !in {UserId, Age, AwaitingAge, AwaitingAllergies} ==> Get(q, f) == Get(p, f)
  {
    GetMerged(p, AgeFields(p, uid, age));
  }

  /** What saving the allergy fields does to a profile. */
  lemma AllergyMerge(p: Profile, uid: string, allergies: seq<string>)
    ensures var q := Merge(p, AllergyFields(p, uid, allergies));
      Get(q, Allergies) == List(allergies) && !Flag(q, AwaitingAllergies)
    ensures var q := Merge(p, AllergyFields(p, uid, allergies));
      forall f :: f !in {UserId, Allergies, AwaitingAllergies} ==> Get(q, f) == Get(p, f)
  {
    GetMerged(p, AllergyFields(p, uid, allergies));
  }

  /** The profile after a message. */
  function AfterText(p: Profile, uid: string, message: string): Profile {
    Updated(p, TextUpdate(p, uid, message))
  }

  /** Diet choice: "1" awaits a report, "2" a condition, "3" only clears the
      choice; anything else leaves the profile as it is. */
  lemma DietChoiceStep(p: Profile, uid: string, message: string)
    requires TextBranch(p) == DietChoice
    ensures var q := AfterText(p, uid, message);
      (Strip(message) == "1" ==> Flag(q, AwaitingDietReport) && !Flag(q, AwaitingDietPlanChoice))
      && (Strip(message) == "2" ==> Flag(q, AwaitingDietCondition) && !Flag(q, AwaitingDietPlanChoice))
      && (Strip(message) == "3" ==> !Flag(q, AwaitingDietPlanChoice))
      && (Strip(message) !in ["1", "2", "3"] ==> q == p)
  {
  }

  /** Name: saved exactly when valid; then the age is awaited. */
  lemma NameStep(p: Profile, uid: string, message: string)
    requires TextBranch(p) == NameInput
    ensures TextUpdate(p, uid, message).Some? <==> NameAccepted(Strip(message))
    ensures var q := AfterText(p, uid, message);
      NameAccepted(Strip(message)) ==>
        Get(q, Name) == Str(Strip(message)) && !Flag(q, AwaitingName) && Flag(q, AwaitingAge)
        && Get(q, Language) == Get(p, Language)
    ensures var q := AfterText(p, uid, message);
      forall f :: f !in {UserId, Name, AwaitingName, AwaitingAge} ==> Get(q, f) == Get(p, f)
  {
    var text := Strip(message);
    if NameAccepted(text) {
      assert AfterText(p, uid, message) == Merge(p, NameFields(p, uid, text));
      NameMerge(p, uid, text);
    }
  }

  /** Age: saved exactly when it reads as 0 to 120; then the allergies are
      awaited. */
  lemma AgeStep(p: Profile, uid: string, message: string)
    requires TextBranch(p) == AgeInput
    ensures TextUpdate(p, uid, message).Some? <==> AgeOf(Strip(message)).Some?
    ensures var q := AfterText(p, uid, message);
      AgeOf(Strip(message)).Some? ==>
        Get(q, Age) == Int(AgeOf(Strip(message)).value) && !Flag(q, AwaitingAge) && Flag(q, AwaitingAllergies)
    ensures var q := AfterText(p, uid, message);
      forall f :: f !in {UserId, Age, AwaitingAge, AwaitingAllergies} ==> Get(q, f) == Get(p, f)
  {
    var text := Strip(message);
    if AgeOf(text).Some? {
      assert AfterText(p, uid, message) == Merge(p, AgeFields(p, uid, AgeOf(text).value));
      AgeMerge(p, uid, AgeOf(text).value);
    }
  }

  /** Allergies: any message is accepted and ends the set-up questions. */
  lemma AllergyStep(p: Profile, uid: string, message: string)
    requires TextBranch(p) == AllergyInput
    ensures var q := AfterText(p, uid, message);
      Get(q, Allergies) == List(ParseAllergies(Strip(message))) && !Flag(q, AwaitingAllergies)
    ensures var q := AfterText(p, uid, message);
      forall f :: f !in {UserId, Allergies, AwaitingAllergies} ==> Get(q, f) == Get(p, f)
  {
    var text := Strip(message);
    assert AfterText(p, uid, message) == Merge(p, AllergyFields(p, uid, ParseAllergies(text)));
    AllergyMerge(p, uid, ParseAllergies(text));
  }

  /** The profile of a user who has a language and is asked `question`
      and nothing else, with the answers given so far. */
  predicate OnlyAwaiting(p: Profile, question: Field, code: string) {
    Get(p, Language) == Str(code) && code != []
    && Flag(p, question) == true
    && (question != AwaitingName ==> !Flag(p, AwaitingName))
    && (question != AwaitingAge ==> !Flag(p, AwaitingAge))
    && (question != AwaitingAllergies ==> !Flag(p, AwaitingAllergies))
    && !Flag(p, AwaitingDietPlanChoice) && !Flag(p, AwaitingDietCondition)
  }

  lemma NameThenAge(p: Profile, uid: string, code: string, name: string)
    requires OnlyAwaiting(p, AwaitingName, code) && NameAccepted(Strip(name))
    ensures var q := AfterText(p, uid, name);
      OnlyAwaiting(q, AwaitingAge, code) && Get(q, Name) == Str(Strip(name))
  {
    var q := AfterText(p, uid, name);
    NameStep(p, uid, name);
    assert Get(q, AwaitingDietPlanChoice) == Get(p, AwaitingDietPlanChoice);
    assert Get(q, AwaitingAllergies) == Get(p, AwaitingAllergies);
    assert Get(q, AwaitingDietCondition) == Get(p, AwaitingDietCondition);
  }

  lemma AgeThenAllergies(p: Profile, uid: string, code: string, age: string)
    requires OnlyAwaiting(p, AwaitingAge, code) && AgeOf(Strip(age)).Some?
    ensures var q := AfterText(p, uid, age);
      OnlyAwaiting(q, AwaitingAllergies, code) && Get(q, Name) == Get(p, Name)
      && Get(q, Age) == Int(AgeOf(Strip(age)).value)
  {
    var q := AfterText(p, uid, age);
    AgeStep(p, uid, age);
    assert Get(q, Language) == Get(p, Language) && Get(q, Name) == Get(p, Name);
    assert Get(q, AwaitingDietPlanChoice) == Get(p, AwaitingDietPlanChoice);
    assert Get(q, AwaitingName) == Get(p, AwaitingName);
    assert Get(q, AwaitingDietCondition) == Get(p, AwaitingDietCondition);
  }

  lemma AllergiesThenDone(p: Profile, uid: string, code: string, allergies: string)
    requires OnlyAwaiting(p, AwaitingAllergies, code)
    ensures var q := AfterText(p, uid, allergies);
      TextBranch(q) == GeneralQuery && Get(q, Language) == Str(code)
      && Get(q, Name) == Get(p, Name) && Get(q, Age) == Get(p, Age)
      && Get(q, Allergies) == List(ParseAllergies(Strip(allergies)))
  {
    var q := AfterText(p, uid, allergies);
    AllergyStep(p, uid, allergies);
    assert Get(q, Language) == Get(p, Language) && Get(q, Name) == Get(p, Name);
    assert Get(q, Age) == Get(p, Age);
    assert Get(q, AwaitingDietPlanChoice) == Get(p, AwaitingDietPlanChoice);
    assert Get(q, AwaitingName) == Get(p, AwaitingName);
    assert Get(q, AwaitingAge) == Get(p, AwaitingAge);
    assert Get(q, AwaitingDietCondition) == Get(p, AwaitingDietCondition);
  }

  /** A new user's language choice saves exactly the language fields. */
  lemma NewUserLanguage(uid: string, code: string)
    requires code in Helpers.LanguageMap
    ensures Updated(map[], CallbackUpdate(map[], uid, LanguageButton(code))) == LanguageChoice(uid, code)
  {
    LanguageSelection(map[], uid, code);
    assert CallbackUpdate(map[], uid, LanguageButton(code)) == Some(LanguageChoice(uid, code));
  }

  lemma LanguageChoiceAwaitsName(uid: string, code: string)
    requires code != []
    ensures OnlyAwaiting(LanguageChoice(uid, code), AwaitingName, code)
  {
  }

  /** A new user who picks a language, then sends a valid name, a valid age
      and any allergy message, is registered, and their next message is a
      general query. */
  lemma Onboarding(uid: string, code: string, name: string, age: string, allergies: string)
    requires code in Helpers.LanguageMap
    requires NameAccepted(Strip(name)) && AgeOf(Strip(age)).Some?
    ensures var p1 := Updated(map[], CallbackUpdate(map[], uid, LanguageButton(code)));
      var p2 := AfterText(p1, uid, name);
      var p3 := AfterText(p2, uid, age);
      var p4 := AfterText(p3, uid, allergies);
      Registered(p4) && TextBranch(p4) == GeneralQuery
      && Get(p4, Language) == Str(code) && Get(p4, Name) == Str(Strip(name))
      && Get(p4, Age) == Int(AgeOf(Strip(age)).value)
      && Get(p4, Allergies) == List(ParseAllergies(Strip(allergies)))
  {
    Helpers.LanguageCodeLength(code);
    NewUserLanguage(uid, code);
    var p1 := LanguageChoice(uid, code);
    LanguageChoiceAwaitsName(uid, code);
    NameThenAge(p1, uid, code, name);
    var p2 := AfterText(p1, uid, name);
    AgeThenAllergies(p2, uid, code, age);
    var p3 := AfterText(p2, uid, age);
    AllergiesThenDone(p3, uid, code, allergies);
  }

  // ----------------------------------------------------------- the store

  /** The user documents, updated in place by the handlers. */
  class UserStore {
    var users: Users

    constructor()
      ensures users == map[]
    {
      users := map[];
    }

    /** `get_user` */
    function GetUser(uid: string): Profile
      reads this
    {
      Lookup(users, Str(uid))
    }

    /** `save_user`: `$set` with upsert. */
    method SaveUser(data: Profile) returns (saved: bool)
      modifies this
      ensures saved <==> UserId in data && Truthy(data[UserId])
      ensures users == Saved(old(users), data)
    {
      if UserId !in data || !Truthy(data[UserId]) {
        return false;
      }
      var id := data[UserId];
      var current := Lookup(users, id);
      users := users[id := Merge(current, data)];
      return true;
    }

    /** `handle_text`: dispatch on the stored flags and save what the chosen
        branch saves. */
    method HandleText(uid: string, message: string) returns (branch: Branch)
      modifies this
      ensures branch == TextBranch(old(GetUser(uid)))
      ensures users == Apply(old(users), TextUpdate(old(GetUser(uid)), uid, message))
    {
      var profile := GetUser(uid);
      var text := Strip(message);
      var saved: bool;
      if !Flag(profile, Language) {
        return NoLanguage;
      }
      if Flag(profile, AwaitingDietPlanChoice) {
        branch := DietChoice;
        var fields := DietChoiceFields(uid, text);
        assert TextUpdate(profile, uid, message) == fields;
        if fields.Some? {
          saved := SaveUser(fields.value);
        }
        return;
      }
      if Flag(profile, AwaitingName) {
        branch := NameInput;
        assert TextBranch(profile) == NameInput;
        if NameAccepted(text) {
          assert TextUpdate(profile, uid, message) == Some(NameFields(profile, uid, text));
          saved := SaveUser(NameFields(profile, uid, text));
        }
      } else if Flag(profile, AwaitingAge) {
        branch := AgeInput;
        assert TextBranch(profile) == AgeInput;
        var age := AgeOf(text);
        if age.Some? {
          assert TextUpdate(profile, uid, message) == Some(AgeFields(profile, uid, age.value));
          saved := SaveUser(AgeFields(profile, uid, age.value));
        }
      } else if Flag(profile, AwaitingAllergies) {
        branch := AllergyInput;
        assert TextBranch(profile) == AllergyInput;
        assert TextUpdate(profile, uid, message) == Some(AllergyFields(profile, uid, ParseAllergies(text)));
        saved := SaveUser(AllergyFields(profile, uid, ParseAllergies(text)));
      } else if Flag(profile, AwaitingDietCondition) {
        branch := DietCondition;
        assert TextBranch(profile) == DietCondition;
        assert TextUpdate(profile, uid, message) == Some(ConditionFields(uid));
        saved := SaveUser(ConditionFields(uid));
      } else {
        branch := GeneralQuery;
      }
    }

    /** `button`, with the guard and the parsing corrected. */
    method HandleCallback(uid: string, data: string)
      modifies this
      ensures users == Apply(old(users), CallbackUpdate(old(GetUser(uid)), uid, data))
    {
      var profile := GetUser(uid);
      var saved: bool;
      match ParseCallback(data)
      case SelectLanguage(code) =>
        if code in Helpers.LanguageMap {
          saved := SaveUser(LanguageChoice(uid, code));
        }
      case Action(name) =>
        if Flag(profile, Language) && name == "diet_plan" {
          saved := SaveUser(DietChoicePrompt(uid));
        }
      case Unrecognised =>
    }

    /** `diet_plan_command` */
    method DietPlanCommand(uid: string)
      modifies this
      ensures users == Apply(old(users), DietPlanUpdate(old(GetUser(uid)), uid))
    {
      var profile := GetUser(uid);
      if Flag(profile, Language) {
        var saved := SaveUser(DietChoicePrompt(uid));
      }
    }
  }
}
