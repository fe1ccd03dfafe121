# Request-outcome rules of three small Flask backends, in Dafny

This project models the rule-bearing logic of three capstone web backends:

- **Trivia API.** It covers the 10-question paginator and the status each endpoint
  answers with (200, 404, 422, or 500 when an exception escapes).
  It also covers the question rows a creation inserts and the quiz question selector.
- **Coffee shop API.** It covers the recipe shape check (`checkRecipeWellformed`) and the
  abort-code precedence of drink create, patch and delete.
  It also covers what a successful patch or delete does to the table.
- **Fyyur booking site.** It covers the `seeking` checkbox flag and the row a venue or
  artist submission writes.
  It also covers the flash message after a venue, artist or show submission.

The database is an immutable value.
The trivia `Store` holds the questions in ascending id order, the categories, and the
next id the serial column hands out.
The coffee `Shop` holds the drinks the same way.
`order_by(id)` is therefore the stored order, and "found / not found" is membership.
A `storeFails` flag stands for the data store raising on the first operation a handler
performs.
Request bodies are parsed JSON values (`Json.Json`), where `JNull` plays Python's `None`.
`body.get(k)` and Python's `in` and `for` on such values follow Python's rules for each
JSON type (`Json.Get`, `Json.PyContains`, `Json.Elements`).
Python slicing is modelled with its negative-index rules, so the paginator is total over
all page numbers.

Modules: `Wrappers`, `Text`, `Json`, `Http`, `Sequences` (shared helpers);
`Paginator`, `TriviaModels`, `TriviaApi` (trivia);
`Recipe`, `CoffeeApi` (coffee shop);
`FyyurForm`, `FyyurListings`, `FyyurShows` (booking site).

Behaviour of the code worth noting:

- A negative page is not read as page 1. Python's slice counts it from the end, and page 0
  is empty.
- In `/quizzes`, an unknown category gives 404. Any exception in the handler turns that
  into 422, including iterating a missing `previous_questions`.
  An exhausted category is a 200 whose `question` is `None`.
- Besides lists of complete ingredient objects, the recipe check also accepts the empty
  string and any object whose member names each contain `color`, `name` and `parts` as
  substrings (`{}` among them).
  That is because Python's `for` and `in` act on strings and dictionaries too
  (`Recipe.StringRecipe`).
- The selector draws from `randrange(len - 1)`, not from all candidates (see Findings).

The `if current_search_result is None` test of the search branch can never fire,
because the paginator always returns a list.
`TriviaApi.SearchQuestions` states it: the search is a 404 exactly when nothing matches.

## Model

| member | source | states |
|---|---|---|
| `Paginator.Page` | projects/02_trivia_api/trivia_api_NikolaiMerz/backend/flaskr/__init__.py:18-26 | At most 10 items for any page. For page p ≥ 1 it is exactly the items at positions [(p-1)·10, min(p·10, n)) in order, with length max(0, min(10, n-(p-1)·10)). It is empty iff the page starts at or past the end. |
| `Paginator.PagesArePrefix` | projects/02_trivia_api/trivia_api_NikolaiMerz/backend/flaskr/__init__.py:20-24 | Pages 1..k concatenated are the first min(10k, n) items. |
| `Paginator.PagesCoverAll` | projects/02_trivia_api/trivia_api_NikolaiMerz/backend/flaskr/__init__.py:20-24 | Pages 1..ceil(n/10) concatenated are the whole list: every item once, in order. |
| `Paginator.PagesPastTheEnd` | projects/02_trivia_api/trivia_api_NikolaiMerz/backend/flaskr/__init__.py:20-24 | Every page after page ceil(n/10) is empty. |
| `TriviaModels.FormatRoundTrip` | projects/02_trivia_api/trivia_api_NikolaiMerz/backend/models.py:54-61 | `format` puts id, question, answer, category and difficulty unchanged under their keys, so the row reads back from the dictionary. |
| `TriviaModels.FormatAll` | projects/02_trivia_api/trivia_api_NikolaiMerz/backend/flaskr/__init__.py:23 | The formatted list has one entry per row, in the same order, each the row's `format`. |
| `TriviaModels.Where` | projects/02_trivia_api/trivia_api_NikolaiMerz/backend/models.py:69-72 | A query filter keeps exactly the accepted rows. It never grows the list and keeps an id-ordered table id-ordered. |
| `TriviaModels.Candidates` | projects/02_trivia_api/trivia_api_NikolaiMerz/backend/models.py:69-72 | The candidates are exactly the rows whose category is `str(category)` and whose id is not among the previous ones, in ascending id order. |
| `TriviaModels.SelectAsWritten` | projects/02_trivia_api/trivia_api_NikolaiMerz/backend/models.py:74-80 | As written: no candidate gives None, one candidate gives that candidate, and more give a candidate at an index in [0, n-2]. |
| `TriviaModels.AsWrittenSkipsLast` | projects/02_trivia_api/trivia_api_NikolaiMerz/backend/models.py:74-76 | With two or more id-ordered candidates, the last one is never returned as written. |
| `TriviaModels.AsWrittenTwoCandidates` | projects/02_trivia_api/trivia_api_NikolaiMerz/backend/models.py:74-76 | With two candidates every admissible draw returns the first and never the second. |
| `TriviaModels.Select` | projects/02_trivia_api/trivia_api_NikolaiMerz/backend/models.py:74-80 | Corrected selection over [0, n): None iff there is no candidate. One candidate gives that candidate. A result is always some candidate's format. |
| `TriviaModels.SelectReachesEvery` | projects/02_trivia_api/trivia_api_NikolaiMerz/backend/models.py:74-76 | Under the corrected draw range, every candidate is returned for some draw. |
| `TriviaModels.RandomQuestion` | projects/02_trivia_api/trivia_api_NikolaiMerz/backend/models.py:64-82 | None iff every question of the category was served before. Otherwise the result is a question whose category is `str(category)` and whose id is not in the previous list. |
| `TriviaApi.PaginateQuestions` | projects/02_trivia_api/trivia_api_NikolaiMerz/backend/flaskr/__init__.py:18-26 | At most 10 formatted questions, each from the selection. For page p ≥ 1 they are the formatted rows at positions (p-1)·10 on, with length max(0, min(10, n-(p-1)·10)), and the page is empty iff it starts past the end. Missing or non-integer `page` reads as 1. |
| `TriviaApi.CategoryTable` | projects/02_trivia_api/trivia_api_NikolaiMerz/backend/flaskr/__init__.py:61 | The id→type dictionary has exactly the category ids as keys, each mapped to the type of a row with that id. |
| `TriviaApi.FindCategory` | projects/02_trivia_api/trivia_api_NikolaiMerz/backend/flaskr/__init__.py:226 | `Category.query.get`: None iff no row has the id, else a row with that id. |
| `TriviaApi.GetAllCategories` | projects/02_trivia_api/trivia_api_NikolaiMerz/backend/flaskr/__init__.py:58-69 | A failing store escapes as 500 because there is no try. 200 iff the store works and there is a category; 404 iff the store works and there is none. A 200 carries the id→type table of all categories. |
| `TriviaApi.ListQuestions` | projects/02_trivia_api/trivia_api_NikolaiMerz/backend/flaskr/__init__.py:75-106 | Store failure gives 422. With a working store, 200 iff the requested page is non-empty, 404 iff it is empty. A 200 carries that page, the total question count, all categories and no current category. |
| `TriviaApi.ListDefaultsToFirstPage` | projects/02_trivia_api/trivia_api_NikolaiMerz/backend/flaskr/__init__.py:19 | A missing or unparsable `page` gives the same response as page 1. |
| `TriviaApi.ListTwentyThree` | projects/02_trivia_api/trivia_api_NikolaiMerz/backend/flaskr/__init__.py:75-106 | With 23 questions, page 1 has 10, page 3 is the last 3 rows, and page 4 is a 404. |
| `TriviaApi.DeleteQuestion` | projects/02_trivia_api/trivia_api_NikolaiMerz/backend/flaskr/__init__.py:112-136 | A failing store gives 422. With a working store, 200 iff a row has the id, 404 iff none has. Aborts leave the store unchanged. On success exactly the row with that id is removed, and the table stays id-ordered. |
| `TriviaApi.NewRow` | projects/02_trivia_api/trivia_api_NikolaiMerz/backend/flaskr/__init__.py:172 | A row exists iff question and answer are strings, difficulty is a number and category is a string or number. It carries the question, answer and difficulty unchanged, and the category as given or as the decimal text of the number. |
| `TriviaApi.CreateQuestion` | projects/02_trivia_api/trivia_api_NikolaiMerz/backend/flaskr/__init__.py:166-185 | Any of the four fields missing gives 422, and so does a failing store; every abort is a 422 that inserts nothing. 200 iff the store works and the fields have column types. On success exactly one row is appended under the next id, that id is returned, and the store stays valid. |
| `TriviaApi.SearchQuestions` | projects/02_trivia_api/trivia_api_NikolaiMerz/backend/flaskr/__init__.py:186-214 | Store failure gives 422. With a working store, 200 iff some question matches and 404 iff none does, so the None test is dead. A 200 carries the requested page of the matches and their non-zero count. |
| `TriviaApi.PostQuestions` | projects/02_trivia_api/trivia_api_NikolaiMerz/backend/flaskr/__init__.py:146-214 | A body that is JSON but neither an object nor null gives 500. A missing or null body reads every field as None, so it is a creation with missing fields (422). A present `searchTerm` selects the search and leaves the store unchanged; otherwise it is the creation. |
| `TriviaApi.SearchTermWins` | projects/02_trivia_api/trivia_api_NikolaiMerz/backend/flaskr/__init__.py:159-166 | With a `searchTerm`, nothing is inserted and no creation is answered, even when all four creation fields are present. |
| `TriviaApi.MissingFieldIsUnprocessable` | projects/02_trivia_api/trivia_api_NikolaiMerz/backend/flaskr/__init__.py:166-172 | Without `searchTerm`, a body lacking any of question/answer/difficulty/category gives 422 and leaves the store unchanged. |
| `TriviaApi.SearchPastTheEnd` | projects/02_trivia_api/trivia_api_NikolaiMerz/backend/flaskr/__init__.py:190-205 | With matches, a page past the end gives 200 with an empty question list and the full match count. |
| `TriviaApi.QuestionsByCategory` | projects/02_trivia_api/trivia_api_NikolaiMerz/backend/flaskr/__init__.py:220-247 | Store failure gives 422. With a working store: 404 iff the requested page of the category's questions is empty; a non-empty page without a category row is 422, from `current_category.type` on None; otherwise 200. A 200 carries exactly that page, the category's question count, and the type of the category row. |
| `TriviaApi.NextQuestion` | projects/02_trivia_api/trivia_api_NikolaiMerz/backend/flaskr/__init__.py:255-277 | 422 iff the store fails or a read raises. A category id may be a number or the decimal text of one. 404 iff the reads succeed and the category is unknown. A 200's question is None iff the category is exhausted; otherwise it is an unserved question of that category. |
| `TriviaApi.QuizWithoutPreviousIsUnprocessable` | projects/02_trivia_api/trivia_api_NikolaiMerz/backend/flaskr/__init__.py:258-272 | A missing `previous_questions` gives 422, even for an unknown category. |
| `TriviaApi.QuizCategoryAsText` | projects/02_trivia_api/trivia_api_NikolaiMerz/backend/flaskr/__init__.py:262-264 | A category id sent as the text `str(n)` gets the same reply, over the same candidates, as the number n. |
| `TriviaApi.QuizWithTextCategoryIsServed` | projects/02_trivia_api/trivia_api_NikolaiMerz/backend/test_flaskr.py:167-181 | The test suite's quiz request, with ids 1, 2 and 3 served before and category `'3'` as text, is a 200, for every admissible draw, when category 3 exists and the store works. |
| `Text.ParseIntRoundTrip` | projects/02_trivia_api/trivia_api_NikolaiMerz/backend/flaskr/__init__.py:262 | Every integer's decimal text reads back as that integer. |
| `Recipe.CheckRecipeWellformed` | projects/03_coffee_shop_full_stack/coffee_shop_NikolaiMerz/backend/src/api.py:18-30 | The flag-and-loop check returns true exactly when the recipe can be iterated and every ingredient contains all of color, name and parts. A raising iteration or `in` test gives false. |
| `Recipe.WellformedObjects` | projects/03_coffee_shop_full_stack/coffee_shop_NikolaiMerz/backend/src/api.py:21-27 | For a list of ingredient objects: well-formed iff every object has the keys color, name and parts. |
| `Recipe.EmptyAndNonIterable` | projects/03_coffee_shop_full_stack/coffee_shop_NikolaiMerz/backend/src/api.py:19-30 | The empty list is valid. None, booleans and numbers are invalid rather than raising. |
| `Recipe.WellformedPermutation` | projects/03_coffee_shop_full_stack/coffee_shop_NikolaiMerz/backend/src/api.py:21-27 | Reordering the ingredients does not change the verdict. |
| `Recipe.WellformedAppend` | projects/03_coffee_shop_full_stack/coffee_shop_NikolaiMerz/backend/src/api.py:21-27 | Appending an ingredient: valid afterwards iff valid before and the new ingredient passes. |
| `Recipe.StringRecipe` | projects/03_coffee_shop_full_stack/coffee_shop_NikolaiMerz/backend/src/api.py:20-28 | A string recipe is valid iff it is empty. |
| `CoffeeApi.CreateAbortCode` | projects/03_coffee_shop_full_stack/coffee_shop_NikolaiMerz/backend/src/api.py:114-119 | A malformed or missing recipe gives 400, overriding everything else. Otherwise 422 iff the title is missing. |
| `CoffeeApi.CreateNewDrink` | projects/03_coffee_shop_full_stack/coffee_shop_NikolaiMerz/backend/src/api.py:100-137 | A body that is JSON but neither an object nor null gives 500. A missing or null body reads both fields as None. A malformed or missing recipe gives 400, and with a valid recipe a missing title or a failing store 422. 200 iff the body is an object with a valid recipe and a string title and the store works. Aborts leave the table unchanged. Success appends one drink with the next id, the given title and the given recipe, and returns it. |
| `CoffeeApi.CreateWithoutRecipe` | projects/03_coffee_shop_full_stack/coffee_shop_NikolaiMerz/backend/src/api.py:110-119 | Any object body without a recipe gives 400, not 422, whatever else it holds. |
| `CoffeeApi.PatchAbortCode` | projects/03_coffee_shop_full_stack/coffee_shop_NikolaiMerz/backend/src/api.py:163-175 | Precedence: a failing lookup (422), then an unknown id (404), then a supplied malformed recipe (400). Then 422 iff title and recipe are both absent. |
| `CoffeeApi.PatchIdempotent` | projects/03_coffee_shop_full_stack/coffee_shop_NikolaiMerz/backend/src/api.py:177-186 | Sending the same patch twice leaves the table as sending it once. |
| `CoffeeApi.PatchDrink` | projects/03_coffee_shop_full_stack/coffee_shop_NikolaiMerz/backend/src/api.py:149-196 | A body that is JSON but neither an object nor null gives 500. A missing or null body reads both fields as None. Any abort code set means that abort; with none, a title that is not a string gives 422. 200 iff no abort code is set and the title is absent or a string. Aborts leave the table unchanged. Success changes only the drink with that id and only its supplied fields, and keeps the table valid. |
| `CoffeeApi.DeleteDrink` | projects/03_coffee_shop_full_stack/coffee_shop_NikolaiMerz/backend/src/api.py:208-235 | A failing store gives 422. With a working store, 200 iff a drink has the id, 404 iff none has. Aborts delete nothing. Success removes exactly the drink with that id. |
| `FyyurForm.Seeking` | projects/01_fyyur/fyyur_NikolaMerz/app.py:175 | The flag is true iff some submitted field is named `seeking`. |
| `FyyurForm.SeekingIgnoresValues` | projects/01_fyyur/fyyur_NikolaMerz/app.py:338 | Changing the value of any submitted field leaves the flag unchanged. |
| `FyyurForm.SeekingWithAnyValue` | projects/01_fyyur/fyyur_NikolaMerz/app.py:446 | A `seeking` field with any value, the empty one included, sets the flag. |
| `FyyurForm.GetList` | projects/01_fyyur/fyyur_NikolaMerz/app.py:173 | `getlist` gives each value as many times as it was submitted under the key, and only those. |
| `FyyurForm.GetListAppend` | projects/01_fyyur/fyyur_NikolaMerz/app.py:173 | The values of a form in two parts are the first part's followed by the second's, so the list keeps submission order. |
| `FyyurListings.ListingFromForm` | projects/01_fyyur/fyyur_NikolaMerz/app.py:167-178 | A row exists iff every field read with `request.form[...]` is present (address only for venues). Each of name, city, state, phone, address (venues), facebook_link, seeking_description, image_link and homepage_link holds the first value submitted under its own field name. `genres` holds all submitted `genres` values, and `seeking` is key presence. |
| `FyyurListings.ListingFlash` | projects/01_fyyur/fyyur_NikolaMerz/app.py:186-191 | A success message starts with "<Kind> <name>"; an error message starts with "An error occurred. ". |
| `FyyurListings.ListingFlashReadsBack` | projects/01_fyyur/fyyur_NikolaMerz/app.py:186-191 | A flash message determines the name it embeds and whether it reports an error. |
| `FyyurListings.Submit` | projects/01_fyyur/fyyur_NikolaMerz/app.py:163-194 | A missing `name` gives 400 from the finally block. The row is written iff the row to edit exists, every field is present and the store works. The flash names the submitted name and reports an error iff nothing was written. A written row's `seeking` is key presence. |
| `FyyurListings.VenueListedTexts` | projects/01_fyyur/fyyur_NikolaMerz/app.py:188-191 | The two venue-creation messages, spelled out. |
| `FyyurListings.CreateVenueSeeking` | projects/01_fyyur/fyyur_NikolaMerz/app.py:175 | A created venue is seeking iff the form has a `seeking` field. |
| `FyyurListings.CreateVenueMessage` | projects/01_fyyur/fyyur_NikolaMerz/app.py:186-191 | Without error the flash is "Venue <name> was successfully listed!". With a failing store it is "An error occurred. Venue <name> could not be listed." and nothing is written. |
| `FyyurShows.ShowFlash` | projects/01_fyyur/fyyur_NikolaMerz/app.py:549-561 | "Show was successfully listed!" iff no error and both ids were found. Any other message starts with "An error occured. " and ends with "Your show could not be listed.". With both ids missing, the venue sentence comes right before the artist sentence. |
| `FyyurShows.PlainFailureText` | projects/01_fyyur/fyyur_NikolaMerz/app.py:552-561 | A failure with both ids found is exactly the opening followed by the closing sentence. |
| `FyyurShows.ShowFlashReadsBack` | projects/01_fyyur/fyyur_NikolaMerz/app.py:549-561 | Each message reads back to its outcome. The venue sentence is present iff the venue was not found, and the artist sentence iff the artist was not found. |
| `FyyurShows.CreateShowSubmission` | projects/01_fyyur/fyyur_NikolaMerz/app.py:520-563 | Success text iff the store works, all three fields are present and both ids exist. The venue sentence appears iff the artist id was read and the submitted venue id is unknown. The artist sentence appears iff the submitted artist id is unknown. |

## Findings

| source | as written | input that shows it | evidently intended | confidence | as-written member | corrected member |
|---|---|---|---|---|---|---|
| projects/02_trivia_api/trivia_api_NikolaiMerz/backend/models.py:75 | `random.randrange(len(questions)-1)` draws an index from [0, n-2] | two unserved questions a, b of the category with a.id < b.id: every draw returns a, so b is not served while a remains | `random.randrange(len(questions))`, a draw over all candidates | high; not executed | `TriviaModels.SelectAsWritten`, exhibited by `TriviaModels.AsWrittenSkipsLast` and `TriviaModels.AsWrittenTwoCandidates` | `TriviaModels.Select`, with `TriviaModels.SelectReachesEvery` proved; `TriviaModels.RandomQuestion` and `TriviaApi.NextQuestion` use it |

## Left out

- Flask routing, `request`/`jsonify`, CORS headers, template rendering and the error-handler envelopes are framework glue. Only the resulting status, payload or flash message is modelled.
- SQLAlchemy sessions, commit, rollback and close are replaced by an immutable store value and the `storeFails` flag. Rollback is modelled as "the store is unchanged".
- The auth module (`requires_auth`, `AuthError`) is not part of this model. It depends on JWT and Auth0.
- `random.randrange` is replaced by the `draw` argument, whose `requires` states its range.
- The case-insensitive `ILIKE '%term%'` search is the `matches` parameter of `TriviaApi.SearchQuestions`. Case folding and `%`/`_` wildcards are not modelled.
- `TriviaModels.RandomQuestion`: the exclusion of previously served ids is modelled as intended (`id not in previous_questions`). Line 71 passes a generator to SQLAlchemy's `and_`. Whether that builds the intended conjunction depends on the library version, which is not part of this model.
- `TriviaApi.NextQuestion`: a quiz category id is read as an integer when it is a JSON number or exactly the text `str(n)` of one. Any other text is treated as a query the database rejects (422). That includes texts the database would still read as an integer, such as `' 3'`, `'03'` and `'+3'`. A previous-question entry that is not a number is treated the same way.
- `TriviaApi.NewRow`: a question field of an unexpected JSON type is treated as a rejected write (422). The database's implicit type conversions are not modelled.
- `CoffeeApi.CreateNewDrink`: a non-string title is treated as a rejected write (422). The title's uniqueness and length limits belong to `database/models.py`, which is not part of this model.
- `CoffeeApi.PatchDrink`: the drink id in the route is an integer here. A non-numeric id, which makes the query raise, is not modelled.
- `CoffeeApi.PatchDrink`: a non-string title is treated as a rejected write (422). The database storing a number as text is not modelled.
- `CoffeeApi.DeleteDrink`: the drink id in the route is an integer here. The route passes a string, and a non-numeric one makes the query raise; that is not modelled.
- `FyyurShows.CreateShowSubmission`: an id text the database cannot compare with an integer key makes the lookup raise in the source, and no not-found sentence is added. The model treats every unknown id text as not found.
- `FyyurListings.Submit`: the edit handlers' lookup by route id is reduced to the `found` flag. The row id is not modelled.
- `json.dumps` of recipes and `Drink.short()`/`Drink.long()` are left out: the drink model file is not part of this model. For the same reason GET /drinks and GET /drinks-detail are left out; both are plain table reads.
- JSON numbers are integers. Floating point is not modelled.
- A request body that is not valid JSON is not modelled. `request.get_json()` then raises inside the handler. The handler answers 400 in createNewQuestion and in the coffee create and patch handlers, where the call is outside any `try`. It answers 422 in getNextQuestion, whose `try` catches it.
- Postgres 32-bit integer ids are unbounded integers here.
- In the booking site, `delete_venue`, `delete_artist`, the search pages, the detail pages with their raw SQL (`getPastShows`, `getUpcomingShows`, `NOW()`) and `format_datetime` are left out. They are database queries and template rendering.
- The starter-code copy of the booking site is left out. Its only modellable logic duplicates the finished `app.py`.
