# Kraya customer-support help desk: the decision logic

Kraya is a small Streamlit app with three help pages: a food health
analyser, a fabric recommender and an electronics help desk. This project
models, in Dafny, the parts of it that decide what the user is told:

- the electronics knowledge-base matcher `mimic_mistral_response`
  (`ui_interface.py`): lower-case the question, scan the knowledge records in
  order and, inside each record, its example questions in order; the first
  example with a whitespace-separated word that occurs in the question decides
  the answer, which lists the record's device, category, problem and solution;
  otherwise a fixed "I'm not sure" reply;
- the electronics keyword-tip lookup of `electronics_page` (`interface.py`):
  start from the "contact official service" reply and take the tip of the
  first keyword of the keyword-to-tip mapping that occurs in the lower-cased
  description, stopping there;
- the food page's mapping from the classifier's label to one of four verdicts;
- the fabric page's feature string built from its five drop-down choices;
- the guards that make each page only warn when its model, vectorizer or data
  was not loaded.

Modules: `Wrappers` (an `Option` type), `Text` (Python's `str.lower()` on
ASCII, `str.split()`, the substring test `in`, and `", ".join` with
`str.split(", ")` as the model's own inverse for the feature-string round
trip; the source never splits that string), `KnowledgeBase` (`ui_interface.py`) and `Interface` (`interface.py`).
The two searches are methods whose loops follow the source (both loops of
the matcher with its early `return`; the tip loop with its `break`). Each is
proved equal to a recursive first-match function. The properties are
lemmas about those functions.

Notes on behaviour, as the code has it:
- The electronics page's device drop-down (`interface.py:94-95`) plays no part in
  the lookup. The matcher takes every record, whatever its device.
- The season drop-down offers Summer, Winter, Spring and Autumn only. The work-level
  drop-down offers High, Medium and Low, in that order.
- A missing model or vectorizer only produces a warning. There is no fallback to
  hand-written rules in these files.
- The classifier label is used as it comes. Any label other than the three known
  ones is shown as "Moderately healthy".

## Model

| member | source | states |
|---|---|---|
| `KnowledgeBase.MimicMistralResponse` | ui_interface.py:7-22 | the nested scan with early return yields exactly `Answer(query, data)`: the formatted first matching record, or the default reply |
| `KnowledgeBase.ExampleMatches` | ui_interface.py:15 | definition of the per-example test `any(word in query for word in example.lower().split())` on an already lower-cased query; `ExampleMatchesOnWord` and `BlankExamplesNeverMatch` state when it holds |
| `KnowledgeBase.RecordMatches` | ui_interface.py:14-15 | definition: some example query of the record passes the per-example test |
| `KnowledgeBase.FormatAnswer` | ui_interface.py:16-21 | the four-field answer starts with '*' and so is never the default reply of line 22, whatever the record holds |
| `KnowledgeBase.Answer` | ui_interface.py:12-22 | with no record matching the lower-cased query the answer is "I'm not sure. Please check device connections or describe the issue more specifically."; otherwise it is the formatted record i that matches with no match before it |
| `KnowledgeBase.ExampleMatchesOnWord` | ui_interface.py:15 | an example whose whitespace-separated word w (after any leading whitespace) occurs, lower-cased, in the query passes the test |
| `KnowledgeBase.FirstMatch` | ui_interface.py:13-15 | the index found is the first record, in list order, some example of which has a lower-cased whitespace-split word occurring in the query; none is found exactly when no record matches |
| `KnowledgeBase.FirstMatchIs` | ui_interface.py:13-16 | a matching record with no matching record before it is the one the search stops at |
| `KnowledgeBase.AnswerCaseInsensitive` | ui_interface.py:12 | the answer for a query equals the answer for its lower-cased form, so queries equal after `lower()` get the same answer |
| `KnowledgeBase.AnswerOnMatch` | ui_interface.py:13-21 | if example k of record i matches and no earlier record does, the answer is "**Device:** ", device, "\n**Category:** ", category, "\n**Problem:** ", problem, "\n**Solution:** ", solution of record i, whatever later examples and records are |
| `KnowledgeBase.AnswerIsDefaultIffNoMatch` | ui_interface.py:13-22 | the answer is the "I'm not sure..." reply if and only if no record matches |
| `KnowledgeBase.BlankExamplesNeverMatch` | ui_interface.py:14-15 | a record whose example queries are all empty or whitespace never matches any query |
| `KnowledgeBase.AnswerIgnoresLaterRecords` | ui_interface.py:13-21 | once record i is the first match, replacing every record after it leaves the answer unchanged |
| `KnowledgeBase.AnswerStableUnderAppend` | ui_interface.py:13-21 | appending records never changes an answer that came from a match |
| `Text.Lower` | ui_interface.py:12 | `lower()` keeps the length and maps each character through ASCII lower-casing |
| `Text.LowerIdempotent` | ui_interface.py:12 | lower-casing a lower-cased string changes nothing |
| `Text.LowerHasNoUpper` | interface.py:102 | a lower-cased string contains no letter A-Z |
| `Text.LowerKeepsSpace` | ui_interface.py:15 | a string is all whitespace exactly when its lower-cased form is |
| `Text.ScanContainsIffContains` | interface.py:105 | the substring test as a left-to-right prefix scan agrees with "some window equals the needle" on every input |
| `Text.UpperNeverInLower` | interface.py:102-105 | a needle with an upper-case ASCII letter never occurs in a lower-cased string |
| `Text.WordLen` | ui_interface.py:15 | the leading word ends at the first whitespace character or at the end of the string |
| `Text.Words` | ui_interface.py:15 | `split()` yields only non-empty words free of whitespace; `WordsOfPadded` and `WordsEmptyIffBlank` pin down which words |
| `Text.WordsSkipSpace` | ui_interface.py:15 | leading whitespace contributes no word |
| `Text.WordsOfPadded` | ui_interface.py:15 | on whitespace, then a non-empty whitespace-free word, then whitespace or the end, `split()` yields that word followed by the words of the rest; with `WordsEmptyIffBlank` this fixes the result on every string |
| `Text.LowerAppend` | ui_interface.py:15 | lower-casing a concatenation is the concatenation of the lower-cased parts |
| `Text.LowerKeepsSpaceAt` | ui_interface.py:15 | each character of the lower-cased string is whitespace exactly when the original one is |
| `Text.WordsEmptyIffBlank` | ui_interface.py:15 | `split()` yields no words if and only if the string is empty or all whitespace |
| `Text.WordLenOfWord` | ui_interface.py:15 | a word followed by whitespace or the end is read as one whole word |
| `Text.WordsOfJoinSpace` | ui_interface.py:15 | splitting non-empty whitespace-free words joined by single spaces gives the same words back |
| `Text.SepIndex` | interface.py:81 | the position found is the first occurrence of ", ", and none is found exactly when ", " does not occur |
| `Text.SplitSep` | interface.py:81 | the model's own inverse of `", ".join` (no source counterpart): `split(", ")` always yields at least one piece; `SplitSepOfJoinSep` states it undoes the join |
| `Text.JoinSepOfFive` | interface.py:81 | joining five pieces with ", " is the five pieces with ", " between them, in order |
| `Text.SepIndexOfPiece` | interface.py:69-73 | in a comma-free piece followed by ", " the first separator is right after the piece |
| `Text.SplitSepOfJoinSep` | interface.py:69-81 | splitting on ", " undoes joining with ", " when no piece contains a comma |
| `Interface.VerdictOf` | interface.py:53-60 | "Unhealthy", "Healthy_WeightLoss" and "Healthy_WeightGain" each select their own verdict (both directions), and every other label selects "Moderately healthy" |
| `Interface.VerdictOfLabelOf` | interface.py:53-60 | each verdict with a label is selected by exactly that label; only "Moderately healthy" has none |
| `Interface.LabelOf` | interface.py:53-60 | the model's own inverse of `VerdictOf` (no source counterpart): the label that selects a verdict; its property is `VerdictOfLabelOf` |
| `Interface.VerdictText` | interface.py:53-60 | definition: the visible text of each of the four verdict boxes; `VerdictTextInjective` states they differ |
| `Interface.VerdictTextInjective` | interface.py:53-60 | two verdict boxes read the same if and only if they are the same verdict |
| `Interface.FoodPage` | interface.py:43-60 | the page warns "Food ML model not loaded" exactly when the model or the vectorizer is missing; otherwise it shows the verdict box text of the model's label for the ingredients |
| `Interface.OptionsAreClosedSets` | interface.py:69-73 | every value of the five closed sets is offered by its drop-down list and reads back as itself, and every option offered reads back as a value |
| `Interface.FieldsHaveNoComma` | interface.py:69-73 | no drop-down option contains a comma |
| `Interface.FeatureString` | interface.py:81 | definition: the f-string of the five choices; `FeatureStringIsJoin` and `FeatureStringRoundTrip` state its properties |
| `Interface.ParseFeatures` | interface.py:69-81 | the model's own inverse of `FeatureString` (no source counterpart): split on ", " into five pieces and read each from its drop-down list; `FeatureStringRoundTrip` states it undoes the feature string |
| `Interface.FeatureStringIsJoin` | interface.py:81 | the feature string is skin type, skin tone, weather, work level and season joined by ", " in that order |
| `Interface.FeatureStringRoundTrip` | interface.py:69-81 | splitting the feature string on ", " gives the five option names back, and reading them gives the selection back |
| `Interface.FabricPage` | interface.py:75-85 | the page warns "Fabric ML model not loaded" exactly when the model or the vectorizer is missing; otherwise it shows the model's label for the feature string |
| `Interface.Hits` | interface.py:104-105 | entry j is true exactly when keyword j occurs in the text |
| `Interface.FirstTrue` | interface.py:104-107 | the index found is the first true entry, and none is found exactly when all entries are false |
| `Interface.FirstKey` | interface.py:104-107 | the index found is the first keyword, in the mapping's order, occurring in the text; none is found exactly when no keyword occurs |
| `Interface.TipFor` | interface.py:102-108 | with no keyword in the lower-cased description the reply is "Contact official service..."; otherwise it is the tip of the first keyword found |
| `Interface.ElectronicsPage` | interface.py:98-108 | the page warns "Electronics data not loaded" exactly when the data is missing or empty; otherwise the loop with `break` shows `TipFor(data, input)` |
| `Interface.FirstTrueIs` | interface.py:104-107 | a true entry with no true entry before it is the one found |
| `Interface.FirstTrueWithout` | interface.py:104-107 | dropping an entry that is not the first true one keeps the first true one, shifted down by one if it came after |
| `Interface.FirstKeyWithoutEntry` | interface.py:104-107 | dropping a mapping entry that is not the first keyword found keeps the same keyword as the first one found |
| `Interface.TipWithoutEntry` | interface.py:104-107 | dropping a mapping entry that is not the first keyword found leaves the reply unchanged |
| `Interface.UppercaseKeyNeverChosen` | interface.py:102-107 | a keyword with an upper-case ASCII letter is never the one chosen, and dropping it changes no reply |
| `Interface.FirstKeyIs` | interface.py:104-107 | a keyword that occurs, with no keyword before it occurring, is the one the loop stops at |
| `Interface.TipIgnoresLaterKeys` | interface.py:104-107 | because of the `break`, once keyword i is found, replacing every entry after it leaves the reply unchanged |

## Left out

- Rendering: Streamlit widgets, page navigation, the HTML/CSS strings and `add_styles`
  (interface.py:5-28, 112-139; ui_interface.py:27-77). The electronics reply is modelled
  without its `result-box` HTML wrapper. The food verdict box is modelled as its visible text, without
  its HTML and colour (`Interface.VerdictText`).
- Buttons and the front-page `query.strip()` checks of `show_interface` (ui_interface.py:44-77).
  They belong to the UI layer.
- The vectorizers' `transform` and the classifiers' `predict` (interface.py:49-50, 82-83).
  They are pre-trained scikit-learn objects, so each is an arbitrary function passed in as a
  parameter. The classifier's label is uninterpreted.
- The numeric food inputs (calories, fat, sugar, fiber, protein; interface.py:37-41). The page
  collects them but never uses them.
- app.py: loading the pickled and joblib artifacts and the JSON knowledge file with try/except,
  and page configuration. This is I/O. A failed load is modelled as a missing artifact (`None`).
  app.py:48 passes four arguments to a five-parameter `show_ui`. That is a wiring fault outside
  the modelled logic.
- The knowledge file's record schema is taken as given: every field is a string and
  `example_queries` is a list of strings. Reading JSON is not modelled.
- `Text.Lower`: only ASCII A-Z are lower-cased. Python's full Unicode case mapping is not
  modelled, and it can change a string's length.
- `Interface.ElectronicsPage`: the keyword-to-tip dict is a sequence of pairs in insertion
  order. Its keys are not required to be distinct, which is more general than a dict.
