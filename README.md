# Product analysis core: Open Food Facts projection and in-memory repository

This project models the two deterministic parts of an ingredient-scanning
web application:

* **The Open Food Facts projection.** This is the part of
  `searchProductByBarcode` that runs after the fetch. It turns an
  already-parsed Open Food Facts product document into the app's product
  record and its analysis:
  - the risk level, from the nutrition grade;
  - the Nutri-Score, NOVA and food scores;
  - additive codes extracted from `additives_tags` with the pattern
    `/e(\d+[a-z]?)/i`;
  - the ingredient list, split on `,` and trimmed;
  - "good" ingredients, selected by keyword;
  - one warning per additive;
  - the name, brand and category defaults, and the image-URL priority.
* **`MemStorage`, the server's repository.** It has two id-keyed maps, each
  with an insertion-ordered key list, and two id counters. Its operations are
  create, lookup by id, linear lookup by barcode or username (first match in
  insertion order), listing all products, whole replacement of a user's
  preferences, and the two seeded sample products.

Files:

* `wrappers.dfy`: `Option` and `Result`.
* `schema.dfy`: the record types of `shared/schema.ts`: risk level,
  Nutri-Score, the analysis, product, preferences and user. The analysis
  carries the three scores the projection adds, as optional fields.
* `text.dfy`: the JavaScript string operations used: `toUpperCase`,
  `toLowerCase`, `trim`, `split` on one character, and `includes`.
* `openfoodfacts.dfy`: the projection. `extractAdditives` and
  `calculateScores` are methods written as the source writes them (a loop
  that pushes codes; `let` variables that are reassigned). Each is proved
  equal to a specification function. The rest are functions, with lemmas
  about them.
* `storage.dfy`: the `MemStorage` class. Its methods state their whole
  effect on the state and preserve `Valid()`. `Valid()` says that both
  counters are at least 1, that the keys are exactly 1 to counter - 1 in
  insertion order, and that every record's id equals its key.

The input document is a datatype with one `Option` per field the projection
reads. `None` here stands for a field that is missing or `null`. For
`additives_tags` it also stands for a value that is not an array, since
`Array.isArray` (client/src/lib/openfoodfacts.ts:22) treats such a value as
absent. An insert record is a `Product` or `User` whose `id` is overwritten on
insertion: the spread `{ ...insert, id }` is modelled as `insert.(id := id)`.

In some places the source's own comments and declarations promise more than
its code does. The model follows the code:

* The comment at client/src/lib/openfoodfacts.ts:59 says "A=100, E=0", and
  the mapping gives E the value 0. But `0 || 50` (line 68) evaluates to 50,
  so grade E gives food score 50.
* shared/schema.ts:17 declares `barcode` unique, yet `createProduct`
  (server/storage.ts:71-76) never deduplicates. Two creates with one barcode
  store two records, and lookup returns the earlier one.
* shared/schema.ts:7 declares `username` unique, yet `createUser`
  (server/storage.ts:45-50) performs no uniqueness check and has no failure
  outcome.
* The risk level compares the raw, case-sensitive grade
  (client/src/lib/openfoodfacts.ts:10-14), while the Nutri-Score upper-cases
  it first (line 48). So "A" gives Nutri-Score A but risk level high.

## Model

| member | source | states |
|---|---|---|
| OpenFoodFacts.RiskLevelOf | client/src/lib/openfoodfacts.ts:6-15 | definition of `calculateRiskLevel`; properties in RiskLevelByGrade and RiskLevelAgainstNutriScore |
| OpenFoodFacts.AdditiveGroup | client/src/lib/openfoodfacts.ts:25-26 | definition of the regex match and its group 1; properties in AdditiveGroupAbsent and AdditiveGroupIsLeftmostGreedy |
| OpenFoodFacts.AdditiveCode | client/src/lib/openfoodfacts.ts:26-27 | definition of one tag's upper-cased code; properties in AdditiveCodeShape and AdditiveCodeExamples |
| OpenFoodFacts.AdditivesOf | client/src/lib/openfoodfacts.ts:18-33 | definition of `extractAdditives`; properties in AdditiveCodesBound, AdditiveCodesCount and AdditiveCodesAppend, and ExtractAdditives equals it |
| OpenFoodFacts.NutriScoreOf | client/src/lib/openfoodfacts.ts:42-52 | definition of the Nutri-Score; properties in NutriScoreSpec and LetterOfUpper |
| OpenFoodFacts.NovaScoreOf | client/src/lib/openfoodfacts.ts:43-57 | definition of the NOVA score; properties in NovaScoreSpec |
| OpenFoodFacts.FoodScoreOf | client/src/lib/openfoodfacts.ts:59-68 | definition of the food score; properties in FoodScoreSpec |
| OpenFoodFacts.ScoresOf | client/src/lib/openfoodfacts.ts:36-71 | definition of `calculateScores`; CalculateScores equals it |
| OpenFoodFacts.IngredientsOf | client/src/lib/openfoodfacts.ts:103-106 | definition of the ingredient list; properties in IngredientsSpec and ExampleIngredients |
| OpenFoodFacts.IsGoodIngredient | client/src/lib/openfoodfacts.ts:132-136 | definition of the keyword test; properties in KeywordMakesGood and GoodIngredientExamples |
| OpenFoodFacts.GoodIngredients | client/src/lib/openfoodfacts.ts:132-136 | definition of the filter; properties in GoodIngredientsSpec |
| OpenFoodFacts.ImageUrlOf | client/src/lib/openfoodfacts.ts:118-125 | definition of the image-URL chain; properties in ImageUrlPriority |
| OpenFoodFacts.CategoryOf | client/src/lib/openfoodfacts.ts:153 | definition of the category: the first tag when truthy, else "Other"; properties in ProductFromResponseDefaults |
| OpenFoodFacts.ProductFromResponse | client/src/lib/openfoodfacts.ts:96-166 | definition of the projection; properties in ProductFromResponseDefaults, ProductFromResponseAnalysis and the three scenarios |
| Text.Trim | client/src/lib/openfoodfacts.ts:105 | definition of `trim`; properties in TrimSpec and TrimIdempotent |
| Text.Split | client/src/lib/openfoodfacts.ts:105 | definition of `split(',')`; properties in SplitLength, SplitPiecesHaveNoSeparator, JoinSplit and SplitJoin |
| Text.Contains | client/src/lib/openfoodfacts.ts:133-135 | definition of `includes`; properties in ContainsAtSomeIndex |
| Storage.Find | server/storage.ts:40-42 | definition of `Array.prototype.find`; properties in FirstIndex and FindAppend |
| Storage.SampleProducts | server/storage.ts:83-110 | the two sample records; their stored form is stated by MemStorage.constructor |
| OpenFoodFacts.RiskLevelByGrade | client/src/lib/openfoodfacts.ts:6-15 | risk is low exactly for grade "a" or "b", medium exactly for "c" or no document, and high for everything else (missing, empty, upper case, other text) |
| OpenFoodFacts.RiskLevelAgainstNutriScore | client/src/lib/openfoodfacts.ts:10-14 | for a lower-case grade letter the risk agrees with the Nutri-Score partition (A, B low; C medium; D, E high); an upper-case letter gives high |
| OpenFoodFacts.AdditiveGroupAbsent | client/src/lib/openfoodfacts.ts:25-26 | a tag gives no match exactly when no e or E in it is directly followed by a digit |
| OpenFoodFacts.AdditiveGroupIsLeftmostGreedy | client/src/lib/openfoodfacts.ts:25 | the captured group starts at the leftmost e/E followed by a digit and is the longest run of digits there, plus one letter if one follows |
| OpenFoodFacts.AdditiveCodeShape | client/src/lib/openfoodfacts.ts:25-27 | every code is "E", then one or more digits, then at most one upper-case letter |
| OpenFoodFacts.TagCodesSpec | client/src/lib/openfoodfacts.ts:23-29 | one tag contributes at most one code, none exactly when it has no match, and only a well-formed one |
| OpenFoodFacts.AdditiveCodesAppend | client/src/lib/openfoodfacts.ts:23-29 | the codes of a concatenation of tag lists are the concatenation of their codes (tag order is kept) |
| OpenFoodFacts.AdditiveCodesBound | client/src/lib/openfoodfacts.ts:18-33 | the additive list is no longer than the tag list and every entry is a well-formed code |
| OpenFoodFacts.AdditiveCodesCount | client/src/lib/openfoodfacts.ts:22-32 | no codes exactly when no tag matches; one code per tag exactly when every tag matches |
| OpenFoodFacts.ExtractAdditives | client/src/lib/openfoodfacts.ts:18-33 | the loop's result is the specification's code list of the tags, in order; missing or non-array tags give [] |
| OpenFoodFacts.AdditiveCodeExamples | client/src/lib/openfoodfacts.ts:24-27 | "en:e100" gives "E100", "en:e150d" gives "E150D", "en:e338" gives "E338", "en:sugar" gives nothing |
| OpenFoodFacts.CalculateScores | client/src/lib/openfoodfacts.ts:36-71 | the reassigning code computes the specification's scores; NOVA lies in [1, 4]; the food score lies in {25, 50, 75, 100} |
| OpenFoodFacts.LetterOfUpper | client/src/lib/openfoodfacts.ts:47-51 | the upper-cased grade is one of A-E exactly when the grade is one letter a-e or A-E, and the chosen Nutri-Score names it |
| OpenFoodFacts.NutriScoreSpec | client/src/lib/openfoodfacts.ts:42-52 | the Nutri-Score is the upper-cased grade for a grade letter in either case, and C otherwise (missing, empty, anything else) |
| OpenFoodFacts.NovaScoreSpec | client/src/lib/openfoodfacts.ts:43-57 | NOVA is `nova_group` exactly when it lies in [1, 4], otherwise 3; always in [1, 4] |
| OpenFoodFacts.FoodScoreSpec | client/src/lib/openfoodfacts.ts:59-68 | the food score follows the mapping for A-D, E gives 50 instead of the mapping's 0, so the score is always one of 25, 50, 75, 100 |
| OpenFoodFacts.IngredientsSpec | client/src/lib/openfoodfacts.ts:103-106 | no ingredients for an absent or empty text; otherwise commas + 1 entries, each the trimmed piece of the split, comma-free and already trimmed |
| OpenFoodFacts.TrimEach | client/src/lib/openfoodfacts.ts:105 | the map of `trim`: same length, each entry the trimmed piece at that position |
| OpenFoodFacts.ExampleIngredients | client/src/lib/openfoodfacts.ts:103-106 | "Aqua, Vitamin E" gives ["Aqua", "Vitamin E"] |
| OpenFoodFacts.GoodIngredientsSpec | client/src/lib/openfoodfacts.ts:132-136 | the good ingredients are an order-preserving sublist of the ingredients, with every good one as often as it occurs and nothing else; membership holds exactly for ingredients that are good |
| OpenFoodFacts.KeywordMakesGood | client/src/lib/openfoodfacts.ts:132-136 | an ingredient whose lower-case form has "vitamin", "protein" or "fiber" anywhere in it is good |
| OpenFoodFacts.GoodIngredientExamples | client/src/lib/openfoodfacts.ts:132-136 | "Vitamin C" and "protein isolate" are good, "Sugar" is not |
| OpenFoodFacts.WarningsOf | client/src/lib/openfoodfacts.ts:161 | one warning per additive, at the same position, "Contains additive " followed by the additive |
| OpenFoodFacts.WarningsSpec | client/src/lib/openfoodfacts.ts:161 | each warning starts with the prefix and the additive can be read back from it |
| OpenFoodFacts.FirstTruthy | client/src/lib/openfoodfacts.ts:118-125 | the first present, non-empty candidate of the list (every earlier one is absent or empty); none exactly when no candidate is present and non-empty |
| OpenFoodFacts.ImageUrlPriority | client/src/lib/openfoodfacts.ts:118-125 | the image URL is the first non-empty of image_url, image_front_url, image_front_small_url, else null |
| OpenFoodFacts.ProductFromResponseDefaults | client/src/lib/openfoodfacts.ts:96-155 | null exactly without a product; id 0 and the given barcode; name, brand and size are the document's value when truthy, else "Unknown Product", "Unknown Brand" and null; the category is the first tag when that is truthy, else "Other" (no tags, no first tag, or an empty first tag); the image URL is the first truthy image field and non-empty when present |
| OpenFoodFacts.ProductFromResponseAnalysis | client/src/lib/openfoodfacts.ts:131-165 | bad ingredients equal the additives, no more than the tags and each well formed; one warning per additive; good ingredients a sublist holding exactly the good ones; NOVA in [1, 4]; food score in {25, 50, 75, 100} and determined by the Nutri-Score |
| OpenFoodFacts.ScenarioGradeA | client/src/lib/openfoodfacts.ts:148-166 | grade "a" with "Aqua, Vitamin E": low risk, Nutri-Score A, food score 100, good ingredients ["Vitamin E"], no warnings |
| OpenFoodFacts.ScenarioGradeE | client/src/lib/openfoodfacts.ts:148-166 | grade "e" with tags en:e150d, en:e338: high risk, Nutri-Score E, food score 50, additives and bad ingredients E150D and E338, one warning for each |
| OpenFoodFacts.ScenarioUpperCaseGrade | client/src/lib/openfoodfacts.ts:10-14 | grade "A": Nutri-Score A and food score 100, yet risk level high |
| Text.ToUpper | client/src/lib/openfoodfacts.ts:27 | same length, each ASCII lower-case letter upper-cased and every other character kept |
| Text.ToLower | client/src/lib/openfoodfacts.ts:133-135 | same length, each ASCII upper-case letter lower-cased and every other character kept |
| Text.TrimSpec | client/src/lib/openfoodfacts.ts:105 | the trimmed string sits in the original between runs of white space, and neither of its ends is white space |
| Text.TrimIdempotent | client/src/lib/openfoodfacts.ts:105 | trimming twice is trimming once |
| Text.SplitLength | client/src/lib/openfoodfacts.ts:105 | splitting on a character gives one piece more than the character's occurrences |
| Text.SplitPiecesHaveNoSeparator | client/src/lib/openfoodfacts.ts:105 | no piece contains the separator |
| Text.JoinSplit | client/src/lib/openfoodfacts.ts:105 | joining the pieces with the separator gives back the string |
| Text.SplitJoin | client/src/lib/openfoodfacts.ts:105 | splitting a join of separator-free pieces gives back the pieces |
| Text.ContainsAtSomeIndex | client/src/lib/openfoodfacts.ts:133-135 | `includes` holds exactly when the keyword occurs at some index |
| Storage.FirstIndex | server/storage.ts:40-42 | the index found satisfies the predicate and no earlier one does; none found exactly when no element satisfies it |
| Storage.FindAppend | server/storage.ts:65-69 | appending records never changes a match already found, and where none was found the result is that of the appended records |
| Storage.MemStorage.constructor | server/storage.ts:25-33 | no users and user counter 1; exactly the products 1 and 2 with barcodes "123456789" and "987654321"; product counter 3 |
| Storage.MemStorage.InitializeSampleProducts | server/storage.ts:82-113 | the two sample records are appended with consecutive ids from the current counter, and users are untouched |
| Storage.MemStorage.CreateProducts | server/storage.ts:112 | one create per record in order: the records are appended with consecutive ids from the current counter, and users are untouched |
| Storage.MemStorage.UserList | server/storage.ts:40 | the users in insertion order: entry i is the user with id i + 1 |
| Storage.MemStorage.ProductList | server/storage.ts:79 | the products in insertion order: entry i is the product with id i + 1 |
| Storage.MemStorage.GetUser | server/storage.ts:35-37 | a user exactly for ids 1 to counter - 1, and it carries that id |
| Storage.MemStorage.GetUserByUsername | server/storage.ts:39-43 | undefined exactly when no user has the name; otherwise a stored user with that name and the smallest id among them (earliest inserted) |
| Storage.MemStorage.CreateUser | server/storage.ts:45-50 | the record gets the old counter as id, which was not in use; the counter goes up by 1; the user list grows by exactly this record; products untouched |
| Storage.MemStorage.UpdateUserPreferences | server/storage.ts:52-59 | an unknown id fails with "User not found" and changes nothing; otherwise only that user's preferences are replaced (id, username, password kept) and all other users, all products and the counters are untouched |
| Storage.MemStorage.GetProduct | server/storage.ts:61-63 | a product exactly for ids 1 to counter - 1, and it carries that id |
| Storage.MemStorage.GetProductByBarcode | server/storage.ts:65-69 | undefined exactly when no product has the barcode; otherwise a stored product with that barcode and the smallest id among them (earliest inserted) |
| Storage.MemStorage.CreateProduct | server/storage.ts:71-76 | the record gets the old counter as id, which was not in use; the counter goes up by 1; the product list grows by exactly this record; users untouched |
| Storage.MemStorage.GetAllProducts | server/storage.ts:78-80 | every product once, in insertion order, which is strictly increasing id order |
| Storage.CreateProductTwice | server/storage.ts:71-80 | two creates with one barcode store two records with distinct ids, the list grows by two, and lookup by barcode answers as before the second create |
| Storage.CreateUserTwice | server/storage.ts:45-50 | two creates with one username store two users, and lookup by name returns one no later than the first |

## Left out

- The fetch, the HTTP status check, `response.json()` and the catch-to-null in `searchProductByBarcode` (client/src/lib/openfoodfacts.ts:88-95, 167-170) are network I/O. The model starts from an already-parsed document.
- `extractNutrition` and the formatted nutrition (client/src/lib/openfoodfacts.ts:74-86, 139-145) work with `parseFloat` and floating point, so the product record has no nutrition field.
- Field values of the wrong JSON type are not modelled: a number where a string is expected, a non-string tag that would make `match` throw, a fractional or non-numeric `nova_group`, or a `categories_tags` that is not an array (a string gives its first character, an object its key `0`). Fields are strings, string lists or integers, or absent.
- Ids are JavaScript numbers: after 2^53 creates, `currentUserId++` and `currentProductId++` would stop producing fresh ids. The model's counters are unbounded integers.
- Text.ToUpper and Text.ToLower map only the ASCII letters. This is exact for every comparison the projection makes, since those compare against ASCII letters and keywords, but it differs from JavaScript for other scripts. For example, "ß" upper-cases to "SS" in JavaScript and is kept as is here.
- `async` and the module-level `storage` singleton (server/storage.ts:116) add nothing sequential and are not modelled. The `IStorage` interface is represented by the class itself.
- Storage.MemStorage.UpdateUserPreferences models the thrown "User not found" error as a `Failure` result.
- The sample records leave `size`, `imageUrl`, `additives` and the three scores undefined. The model gives them `None`.
- The generative-AI ingredient analysis, the Express routes, the request validation, the drizzle/zod schema builders and the React user interface are not part of this model.
