# AarogyaAI core, modelled in Dafny

AarogyaAI is a Telegram health assistant. This project models its
deterministic core and proves properties of that model:

- **Lab-value extraction** (`analyze_health_indicators`). Five
  case-insensitive regular expressions look for blood sugar, blood
  pressure, cholesterol, creatinine and BMI readings in a free-text report.
  Each value found fills one field of a six-field record. Each filled field
  may raise one condition flag: Diabetes, Pre-diabetes, Hypertension and so
  on, graded High or Moderate.
- **Regular-expression search** (module `Regex`), in the fragment those
  five patterns use. A greedy, non-backtracking matcher and a
  left-to-right `re.search` are proved to return the leftmost match, the
  longest match at that start, and its only possible group texts. This
  holds for every pattern whose neighbouring tokens cannot compete for a
  character, which all five patterns are proved to satisfy.
- **Helpers.** The language table, `sanitize_text` and
  `validate_translation`.
- **Bot state machine** (`telegram_bot.py`):
  - the onboarding flow: language button, then name, then age, then
    allergies;
  - the validators for names, ages and allergy lists;
  - the parsing of callback data;
  - the diet-plan menu flags;
  - the `$set`-with-upsert save of user documents;
  - splitting long replies into Telegram-sized messages;
  - the condition extractor.
  
  `UserStore` is a class whose `users` map its methods update in place.
- **Diet agent.** Condition-name normalisation, extraction of the JSON
  text from a fenced reply, and the plan-shape check.
- **`route_query`.** Keyword routing to the diet, prescription or
  question-answering agent.

Numbers are exact: `float()` of a captured decimal becomes a `real` and
`int()` becomes an `int`. Character classes are the ASCII ones, except
whitespace, which is Python's `str.isspace()` set.

## Model

| member | source | states |
|---|---|---|
| Text.Strip | src/bot/telegram_bot.py:359 | the result has no whitespace at either end, is no longer than the input, and is empty exactly when the input is all whitespace |
| Text.StripTrims | src/bot/telegram_bot.py:359 | `strip()` removes only whitespace, and only from the two ends |
| Text.StripIdempotent | src/bot/telegram_bot.py:359 | stripping twice is stripping once |
| Text.Lower | src/ai_pipeline/diet_agent.py:35 | `lower()` keeps the length and lower-cases each character on its own, by the ASCII rule |
| Text.IndexFrom | src/ai_pipeline/diet_agent.py:138 | the index found is an occurrence at or after the start, and no occurrence lies before it; `None` means there is none |
| Text.Contains | src/ai_pipeline/route_query.py:42 | `pat in s` holds exactly when `pat` occurs at some index |
| Text.Split | src/bot/telegram_bot.py:503 | `split(sep)` gives at least one part, no part contains `sep`, and joining the parts with `sep` gives back the input |
| Text.SplitJoin | src/bot/telegram_bot.py:503 | splitting a join of separator-free parts gives back exactly those parts |
| Numerals.ShowRoundTrip | src/bot/telegram_bot.py:470 | reading the decimal spelling of `n` gives `n` |
| Numerals.DecimalValue | src/ai_pipeline/prediction_agent.py:25 | `float(u)` of a matched reading lies between the integer read from the digits before the dot and that integer plus one (excluded) |
| Numerals.DecimalValueBetween | src/ai_pipeline/prediction_agent.py:25 | `float("<n>.<digits>")` lies in `[n, n+1)` |
| Numerals.ParseIntShow | src/bot/telegram_bot.py:470 | `int(str(n)) == n`, also with a `-` or `+` sign in front |
| Numerals.ParseInt | src/bot/telegram_bot.py:470 | whatever `int()` accepts, once stripped, is non-empty and starts with a digit or a sign, and a negative value comes only from a leading minus |
| Regex.TokenEndSpec | src/ai_pipeline/prediction_agent.py:18-22 | the text a token takes from `k` is text it accepts; a greedy token takes a whole run; and no text the token accepts from `k` is longer than what it takes |
| Regex.MatchAtSound | src/ai_pipeline/prediction_agent.py:18-22 | what the greedy matcher returns is a match of the pattern, with those group texts |
| Regex.MatchAtComplete | src/ai_pipeline/prediction_agent.py:18-22 | for a separated pattern, if any match starts at `k` then the matcher finds one there, no shorter, with the same groups when it has the same end |
| Regex.MatchAtExact | src/ai_pipeline/prediction_agent.py:18-22 | a match whose last token cannot be extended by the next character is exactly what the matcher returns |
| Regex.SearchFromLeftmost | src/ai_pipeline/prediction_agent.py:18-22 | no start position before the one the search reports has a match |
| Regex.SearchGroupsTyped | src/ai_pipeline/prediction_agent.py:25-50 | group `g+1` of a found match is text accepted by the pattern's `g`-th capturing token |
| Regex.DerivesGroups | src/ai_pipeline/prediction_agent.py:18-22 | a match has one group text per capturing token, each accepted by that token |
| Regex.DerivesOfParts | src/ai_pipeline/prediction_agent.py:18-22 | pieces each accepted by their token make up a match of the pattern |
| Regex.LeftmostLongestUnique | src/ai_pipeline/prediction_agent.py:18-22 | there is at most one leftmost-longest match |
| Regex.SearchFindsLeftmostLongest | src/ai_pipeline/prediction_agent.py:18-22 | `re.search` fails exactly when the pattern matches nowhere; otherwise it returns the leftmost start, the longest match there, and that match's groups |
| Regex.SearchOfParts | src/ai_pipeline/prediction_agent.py:18-22 | a text made of accepted pieces, followed by a character that cannot extend the last one, is found at position 0 with those pieces' groups |
| Regex.SearchAtStart | src/ai_pipeline/prediction_agent.py:18-22 | a match at position 0 is what the search returns |
| PredictionAgent.PatternsSeparated | src/ai_pipeline/prediction_agent.py:18-22 | in none of the five patterns can neighbouring tokens compete for a character |
| PredictionAgent.PatternGroups | src/ai_pipeline/prediction_agent.py:25-50 | the sugar value is group 2, both pressure groups are digit runs, and the other values are group 1 |
| PredictionAgent.GroupsTyped | src/ai_pipeline/prediction_agent.py:25-50 | whatever the text, every group passed to `float()` is a decimal numeral and every group passed to `int()` is a digit run, so neither conversion can fail |
| PredictionAgent.DecimalGroup | src/ai_pipeline/prediction_agent.py:24-25 | a value is read exactly when the search finds a match |
| PredictionAgent.DigitsGroup | src/ai_pipeline/prediction_agent.py:31-33 | a value is read exactly when the search finds a match |
| PredictionAgent.DecimalGroupMeaning | src/ai_pipeline/prediction_agent.py:24-25 | a decimal field is `None` exactly when its pattern matches nowhere; otherwise it holds the `float` of the group of the leftmost-longest match |
| PredictionAgent.DigitsGroupMeaning | src/ai_pipeline/prediction_agent.py:31-33 | the same for the two `int` pressure fields |
| PredictionAgent.PressurePaired | src/ai_pipeline/prediction_agent.py:31-33 | systolic and diastolic are set together or not at all |
| PredictionAgent.SugarReadingAtStart | src/ai_pipeline/prediction_agent.py:18-25 | a report opening with `blood <sugar or glucose> <: or => <number>` reads as that number |
| PredictionAgent.PressureReadingAtStart | src/ai_pipeline/prediction_agent.py:19-33 | a report opening with `blood pressure: s/d` reads as systolic `s` and diastolic `d` |
| PredictionAgent.LabReadingAtStart | src/ai_pipeline/prediction_agent.py:20-50 | a report opening with a cholesterol, creatinine or BMI reading has that value in the corresponding field |
| PredictionAgent.SugarExample | src/ai_pipeline/prediction_agent.py:18-29 | `"Blood Sugar: 126"` reads as 126.0 and is flagged Pre-diabetes/Moderate, not Diabetes |
| PredictionAgent.SugarFlag | src/ai_pipeline/prediction_agent.py:26-29 | Diabetes/High exactly above 126; Pre-diabetes/Moderate exactly in (100, 126]; nothing at or below 100 |
| PredictionAgent.PressureFlag | src/ai_pipeline/prediction_agent.py:34-37 | Hypertension/High exactly when systolic > 140 or diastolic > 90; Pre-hypertension/Moderate exactly when not that and either reading is in its 120-140 / 80-90 band; nothing exactly when both are below those bands |
| PredictionAgent.CholesterolFlag | src/ai_pipeline/prediction_agent.py:41-42 | High Cholesterol/High exactly above 200 |
| PredictionAgent.CreatinineFlag | src/ai_pipeline/prediction_agent.py:46-47 | Kidney Issue/Moderate exactly above 1.2 |
| PredictionAgent.BmiFlag | src/ai_pipeline/prediction_agent.py:51-54 | Obesity/High exactly above 30; Overweight/Moderate exactly in [25, 30]; nothing below 25 |
| PredictionAgent.FlagsMonotone | src/ai_pipeline/prediction_agent.py:24-54 | a higher reading never gives a milder flag |
| PredictionAgent.FlagBoundaries | src/ai_pipeline/prediction_agent.py:26-54 | the values at the thresholds: sugar 126 is Pre-diabetes, 140/90 is Pre-hypertension, cholesterol 200 is not flagged, BMI 30 is Overweight |
| PredictionAgent.ConditionsOrdered | src/ai_pipeline/prediction_agent.py:16-54 | at most five conditions, listed in the fixed field order (sugar, pressure, cholesterol, creatinine, BMI) |
| PredictionAgent.ConditionsListed | src/ai_pipeline/prediction_agent.py:24-54 | a condition is listed exactly when one of the five fields raises it |
| PredictionAgent.NoReadingsNoConditions | src/ai_pipeline/prediction_agent.py:8-16 | the all-`None` record raises nothing |
| PredictionAgent.AnalyzeHealthIndicators | src/ai_pipeline/prediction_agent.py:7-56 | the method returns the record of the five searches and the list of flags that record raises |
| Helpers.LanguageTables | src/utils/helpers.py:12-31 | the language table and the keyword table cover the same seven codes |
| Helpers.SpeechCodes | src/utils/helpers.py:12-20 | each language's speech code is its code plus `-IN`, except English, which gets `-US` |
| Helpers.KeepWordsAndSpaces | src/utils/helpers.py:38 | only word characters and whitespace remain, and the result is no longer than the input |
| Helpers.Sanitize | src/utils/helpers.py:33-39 | the result has no whitespace at either end and holds only word characters and whitespace |
| Helpers.SanitizeDeletesOnly | src/utils/helpers.py:38-39 | the result is a subsequence of the input: characters are deleted, never added or reordered |
| Helpers.KeepPerCharacter | src/utils/helpers.py:38 | the substitution judges each character on its own: on a concatenation it is the concatenation of the results, and one character stays exactly when it is a word character or whitespace |
| Helpers.KeepsEveryWordCharacter | src/utils/helpers.py:38 | no word character or whitespace character of the input is lost: the one at position `i` appears in the result at the position right after what is kept of the text before `i` |
| Helpers.KeepAll | src/utils/helpers.py:38 | text made only of word characters and whitespace passes the substitution unchanged |
| Helpers.SanitizeIdempotent | src/utils/helpers.py:33-39 | sanitising twice is sanitising once |
| Helpers.ScriptBlock | src/utils/helpers.py:80-98 | a Unicode block is required exactly for the six non-English languages of the table |
| Helpers.ValidateTranslation | src/utils/helpers.py:41-100 | an accepted text is at least 2 characters once stripped and uses its language's script; unless it is a set-up prompt, it does not lack the target-language health terms |
| Helpers.ValidateTranslationMeaning | src/utils/helpers.py:41-100 | accepted exactly when long enough, in the right script, and either a set-up prompt or not missing the health terms |
| Helpers.UnknownLanguageAccepted | src/utils/helpers.py:74-100 | a code outside the table is accepted exactly when the stripped text has at least 2 characters |
| Helpers.ScriptRequired | src/utils/helpers.py:80-98 | an accepted text in an Indian language contains a character from that language's block |
| Helpers.SetupPromptSkipsKeywords | src/utils/helpers.py:48-71 | a long-enough set-up prompt is judged by the script test alone |
| Helpers.NoEnglishTermsWithoutLowerCase | src/utils/helpers.py:74-75 | a text without lower-case ASCII letters contains no English health term |
| Helpers.ScriptTextAccepted | src/utils/helpers.py:41-100 | a text of 2 or more characters written wholly in the target block is accepted |
| Helpers.LowerCaseEnglishAccepted | src/utils/helpers.py:74-77 | lower-case English of 2 or more characters is accepted |
| Helpers.UpperCaseEnglishRejected | src/utils/helpers.py:74-77 | upper-case English health text that is not a set-up prompt is rejected for `"en"`, because the keyword test on the raw text is case-sensitive |
| DietAgent.SynonymTable | src/ai_pipeline/diet_agent.py:36-43 | the variants map onto the three canonical names, which are not variants themselves and are lower case and stripped |
| DietAgent.NormalizeCondition | src/ai_pipeline/diet_agent.py:33-44 | the result is lower case, stripped and never a variant; a known variant becomes the canonical name the table gives for it, and anything else is returned lower-cased and stripped |
| DietAgent.NormalizeIdempotent | src/ai_pipeline/diet_agent.py:33-44 | normalising twice is normalising once |
| DietAgent.NormalizeIgnoresCase | src/ai_pipeline/diet_agent.py:35 | names that agree after lower-casing and stripping normalise alike |
| DietAgent.ExtractJsonText | src/ai_pipeline/diet_agent.py:127-142 | the JSON text has no whitespace at either end, and without an opening fence it is the whole stripped reply |
| DietAgent.ExtractFenced | src/ai_pipeline/diet_agent.py:138-140 | with the first opening fence at `o` and the nearest closing fence after it at `c`, the JSON text is the stripped text between them |
| DietAgent.ExtractUnclosed | src/ai_pipeline/diet_agent.py:138-142 | with the first opening fence at `o` and no closing fence after it, the JSON text is the whole stripped reply |
| DietAgent.FirstOpenerDecides | src/ai_pipeline/diet_agent.py:138 | when no closing fence follows the first opening fence, no opening fence has a closing fence after it, so the search finds nothing |
| DietAgent.FencedBody | src/ai_pipeline/diet_agent.py:127-142 | a reply that is one fenced block with a backtick-free body yields the stripped body |
| DietAgent.AttemptErrorsDistinct | src/ai_pipeline/diet_agent.py:135-160 | the three failures (empty reply, undecodable text, missing members) are reported with three different error messages |
| DietAgent.CheckReply | src/ai_pipeline/diet_agent.py:127-160 | a plan is returned only with both `days` and `notes` and is the decoded JSON text; the empty-reply error occurs exactly for a blank reply, the format error exactly when the JSON text of a non-blank reply does not decode, and the structure error exactly when it decodes to a value lacking `days` or `notes` |
| DietAgent.PlanAcceptance | src/ai_pipeline/diet_agent.py:155 | a decoded value is accepted exactly when it is an object with both members |
| RouteQuery.RouteOf | src/ai_pipeline/route_query.py:40-50 | diet agent exactly when a diet word occurs in the lower-cased query; prescription agent exactly when no diet word occurs but a report word does; QA otherwise |
| RouteQuery.RouteIgnoresCase | src/ai_pipeline/route_query.py:40 | queries equal up to letter case are routed alike |
| RouteQuery.KeywordInside | src/ai_pipeline/route_query.py:42 | a keyword counts even inside another word |
| RouteQuery.DietWordWins | src/ai_pipeline/route_query.py:42-44 | any query containing a diet word goes to the diet agent, whatever report words it also holds |
| RouteQuery.ReportWordRoutes | src/ai_pipeline/route_query.py:45-47 | a report word without a diet word sends the query to the prescription agent |
| RouteQuery.SeafoodExample | src/ai_pipeline/route_query.py:42-44 | "seafood" goes to the diet agent |
| RouteQuery.LabelExample | src/ai_pipeline/route_query.py:45-47 | "Label" goes to the prescription agent |
| RouteQuery.Respond | src/ai_pipeline/route_query.py:38-53 | the reply is the chosen agent's answer, or the apology when that agent raises |
| TelegramBot.Merge | src/database/mongodb.py:93-97 | `$set`: the fields given are overwritten or added, and every other field keeps its value |
| TelegramBot.Saved | src/database/mongodb.py:89-97 | without a truthy `user_id` nothing changes; otherwise that user's document is merged or created, and no other document changes |
| TelegramBot.SaveForUser | src/database/mongodb.py:89-97 | an update naming the user changes that user's document as `Updated` says, and no other |
| TelegramBot.Registered | src/bot/telegram_bot.py:151-152 | a registered profile has a language, a name, an age and allergies stored, and its text messages are never turned back for want of a language |
| TelegramBot.NameCharacters | src/bot/telegram_bot.py:442 | a name is accepted exactly when it has 1 to 50 characters and every character in it is an ASCII letter or whitespace |
| TelegramBot.NameShape | src/bot/telegram_bot.py:442 | an accepted name begins and ends with a letter |
| TelegramBot.AgeOf | src/bot/telegram_bot.py:469-472 | an age is accepted exactly when `int()`, with ASCII digits, reads it and it lies in 0..120, and it is that value |
| TelegramBot.AgeRoundTrip | src/bot/telegram_bot.py:469-472 | every age 0..120 typed in plain digits is accepted as itself |
| TelegramBot.KeptAllergies | src/bot/telegram_bot.py:502-505 | no more items than given; each kept one is valid, lower case and stripped |
| TelegramBot.ParseAllergies | src/bot/telegram_bot.py:500-505 | "none" in any case gives the empty list; any other text gives the items kept from its comma split; every entry is a valid, lower-case, stripped allergy |
| TelegramBot.KeptAllergiesPerItem | src/bot/telegram_bot.py:502-505 | items are judged one at a time: on concatenated item lists the kept lists concatenate, in order and with repeats, and one item is kept, stripped and lower-cased, exactly when it is valid once stripped |
| TelegramBot.KeptAllergiesMembers | src/bot/telegram_bot.py:502-505 | an allergy is kept exactly when some item, once stripped, is valid and lower-cases to it |
| TelegramBot.KeptAllergiesOfValid | src/bot/telegram_bot.py:502-505 | valid, lower-case, stripped items pass through unchanged |
| TelegramBot.AllergyRoundTrip | src/bot/telegram_bot.py:500-505 | writing a list of valid allergies with commas and reading it back gives the same list |
| TelegramBot.ExtractCondition | src/bot/telegram_bot.py:736-742 | "diabetes" exactly when the lower-cased text contains it, `None` otherwise |
| TelegramBot.ExtractedConditionIsCanonical | src/bot/telegram_bot.py:736-742 | the extracted condition is already normalised for the diet agent, and the extraction ignores case |
| TelegramBot.Chunks | src/bot/telegram_bot.py:621-624 | a reply is sent as at least one message |
| TelegramBot.ChunksJoin | src/bot/telegram_bot.py:621-626 | the messages concatenate to the text, and a text that fits is sent whole |
| TelegramBot.ChunksFull | src/bot/telegram_bot.py:624 | every message but the last has exactly `max_length` characters, and the last holds 1 to `max_length` characters unless the text is empty |
| TelegramBot.ChunksCount | src/bot/telegram_bot.py:624 | the number of messages is the length divided by `max_length`, rounded up |
| TelegramBot.SendLongMessage | src/bot/telegram_bot.py:615-626 | the messages sent, in order, are the chunks of the text |
| TelegramBot.ButtonPrefixes | src/bot/telegram_bot.py:163-175 | language buttons and menu buttons are told apart by their prefixes, and each prefix gives back the parameter |
| TelegramBot.ParseCallbackAsWritten | src/bot/telegram_bot.py:268-293 | as written, the parameter is the first `_`-separated field after the prefix |
| TelegramBot.ParseCallback | src/bot/telegram_bot.py:268-293 | corrected: the parameter is all the text after the prefix, and the button data is rebuilt from it |
| TelegramBot.ParsersAgree | src/bot/telegram_bot.py:271 | both parsers agree whenever the parameter has no underscore of its own |
| TelegramBot.CallbackUpdateAsWritten | src/bot/telegram_bot.py:260-319 | as written, nothing is saved for a user without a language |
| TelegramBot.CallbackUpdate | src/bot/telegram_bot.py:260-319 | corrected: menu actions still need a language, but language buttons do not |
| TelegramBot.NewUserCannotChooseLanguage | src/bot/telegram_bot.py:260-263 | as written, a new user's language button saves nothing, and that user is not registered |
| TelegramBot.DietPlanButtonIgnored | src/bot/telegram_bot.py:293-306 | as written, `action_diet_plan` parses as `diet`, and the button saves nothing |
| TelegramBot.LanguageSelection | src/bot/telegram_bot.py:268-285 | corrected: a language button is accepted exactly for a code in the table, and stores the language with the name question awaited |
| TelegramBot.MenuButtonsParsed | src/bot/telegram_bot.py:292-319 | corrected: each of the four menu buttons parses as its own action, and Diet Plan makes a user with a language await the diet choice |
| TelegramBot.DietPlanUpdate | src/bot/telegram_bot.py:199-216 | `/dietplan` saves the diet-choice flag exactly when a language is stored |
| TelegramBot.TextBranch | src/bot/telegram_bot.py:363-571 | no language is the first test; the general query branch is taken exactly when a language is set and no awaited flag is |
| TelegramBot.TextUpdate | src/bot/telegram_bot.py:363-562 | every save names the sender, and nothing is saved without a language or for a general query |
| TelegramBot.NameMerge | src/bot/telegram_bot.py:450-459 | saving a name stores it, stops awaiting the name, awaits the age, keeps the language, and changes nothing else |
| TelegramBot.AgeMerge | src/bot/telegram_bot.py:473-483 | saving an age stores it, stops awaiting it, awaits the allergies, and changes nothing else |
| TelegramBot.AllergyMerge | src/bot/telegram_bot.py:506-516 | saving allergies stores them, stops awaiting them, and changes nothing else |
| TelegramBot.DietChoiceStep | src/bot/telegram_bot.py:368-437 | "1" awaits a report, "2" awaits a condition, "3" only clears the choice, and any other text changes nothing |
| TelegramBot.NameStep | src/bot/telegram_bot.py:439-464 | a name is saved exactly when it is valid; then the age is awaited and only the name fields change |
| TelegramBot.AgeStep | src/bot/telegram_bot.py:466-495 | an age is saved exactly when it reads as 0..120; then the allergies are awaited and only the age fields change |
| TelegramBot.AllergyStep | src/bot/telegram_bot.py:497-516 | any message is accepted as the allergy list and ends the questions; only the allergy fields change |
| TelegramBot.NameThenAge | src/bot/telegram_bot.py:439-464 | from "awaiting only the name", a valid name leads to "awaiting only the age" |
| TelegramBot.AgeThenAllergies | src/bot/telegram_bot.py:466-495 | from "awaiting only the age", a valid age leads to "awaiting only the allergies" |
| TelegramBot.AllergiesThenDone | src/bot/telegram_bot.py:497-516 | from "awaiting only the allergies", any message leads to the general query branch, and language, name and age are kept |
| TelegramBot.NewUserLanguage | src/bot/telegram_bot.py:268-285 | corrected flow: a new user's language button saves exactly the language fields |
| TelegramBot.LanguageChoiceAwaitsName | src/bot/telegram_bot.py:276-282 | after a language is chosen, only the name is awaited |
| TelegramBot.Onboarding | src/bot/telegram_bot.py:268-516 | a new user who picks a language and sends a valid name, a valid age and any allergy message ends up registered, as `start` tests it, with those values; their next message is a general query |
| TelegramBot.UserStore.SaveUser | src/database/mongodb.py:83-99 | returns whether a truthy `user_id` was given; the collection becomes `Saved` of the old one |
| TelegramBot.UserStore.HandleText | src/bot/telegram_bot.py:363-571 | returns the branch the stored flags select and applies that branch's save to the collection |
| TelegramBot.UserStore.HandleCallback | src/bot/telegram_bot.py:229-319 | applies the corrected button update to the collection |
| TelegramBot.UserStore.DietPlanCommand | src/bot/telegram_bot.py:182-226 | applies the `/dietplan` update to the collection |

## Left out

- All I/O is left out: Telegram transport, replies, keyboards, files, PDFs (`pdf_generator.py`), OCR, speech recognition and the n8n webhook. The model keeps the state changes and the text that decides them.
- The LLM calls and translation (`translation.py`, `qa_agent.py`, `prescription_agent.py`) are left out. The diet agent's retry loop, its prompt building, its response cache and its translation of the plan are left out too; only one pass of the loop body is modelled (`DietAgent.CheckReply`). `json.loads` is a parameter.
- Calls into the diet agent and the interaction log inside `handle_text` are assumed to return normally. Their exception branches (telegram_bot.py:425-430, 563-569) and the PDF sending are left out.
- The database-unavailable branches (`mongodb.db is None`) and `PyMongoError` are left out. The store is always reachable.
- Floating point is left out: readings are exact rationals. A decimal with more digits than a double holds compares exactly here.
- Regex.TokenAccepts: the `\d` and case-folding rules are ASCII only. Python's `\d` also matches other Unicode decimal digits, and `(?i)` folds non-ASCII letters. `\w` in `sanitize_text` is a parameter of `Helpers.Sanitize` rather than Unicode's table.
- TelegramBot.AgeOf: digits are ASCII only. Python's `int()` also reads other Unicode decimal digits (for instance Devanagari digits), which the bot would accept as an age and this model rejects.
- Numerals.ParseInt: the same restriction: only the ASCII digits `0` to `9` are read, so a text `int()` reads in another script is `None` here.
- Text.Lower: case folding is ASCII only. Python's `str.lower()` also lower-cases non-ASCII letters, so `NormalizeCondition`, `RouteOf`, `ExtractCondition` and the "none" test of `ParseAllergies` treat such letters as they are.
- TelegramBot.NameAccepted: the `$` of `^[a-zA-Z\s]{1,50}$` also matches before a final newline. That cannot arise here, because the text is stripped first.
- `route_query.py` imports `generate_diet_plan` from `diet_agent.py` (line 4), which defines it only as a method. The bot uses its own placeholder `route_query` (telegram_bot.py:129-132) for general queries. `RouteQuery.RouteOf` models the routing decision as written.
- The interactions collection is not modelled: `handle_text` records diet plans and general queries with `save_interaction` (telegram_bot.py:422-423, 561, 606), and `TextUpdate` covers only the user documents. The rest of the general query branch (sanitise, route, translate, reply) is I/O. `handle_document` and `handle_voice` are not part of this model.
- `isinstance` guards on non-string input, logging, the md5 cache key and `DIAGNOSTIC_MODE` are left out.
- `start` is modelled only through its registration test (`Registered`, telegram_bot.py:151-152).

## Findings

| source | as written | input that shows it | evidently intended | confidence | as-written member | corrected member |
|---|---|---|---|---|---|---|
| src/bot/telegram_bot.py:260-268 | `button` returns "Please start with /start" when no language is stored, before it looks at `lang_` data | a new user (empty document) presses the `lang_en` button that `start` showed them: nothing is saved, so no one can ever complete onboarding | the language guard applies to `action_` buttons only; a language button is accepted without a stored language | high (not executed) | TelegramBot.CallbackUpdateAsWritten, TelegramBot.NewUserCannotChooseLanguage | TelegramBot.CallbackUpdate, TelegramBot.LanguageSelection, TelegramBot.Onboarding |
| src/bot/telegram_bot.py:293-306 | `action = data.split("_")[1]` | `action_diet_plan` gives `"diet"`, which matches no branch, so the Diet Plan button does nothing | the whole parameter (`split("_", 1)[1]`), so `diet_plan` reaches line 306 | high (not executed) | TelegramBot.ParseCallbackAsWritten, TelegramBot.DietPlanButtonIgnored | TelegramBot.ParseCallback, TelegramBot.MenuButtonsParsed |
