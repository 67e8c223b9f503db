/**
 * The client-side projection of an Open Food Facts product document onto the
 * application's product record (client/src/lib/openfoodfacts.ts): risk level,
 * additive codes, scores, ingredient list, good and bad ingredients, warnings
 * and field defaults. The fetch around it is not modelled: the projection
 * starts from the already parsed response body.
 */
module OpenFoodFacts {
  import opened Wrappers
  import opened Text
  import opened Schema

  /**
   * The fields of an Open Food Facts product document that the projection
   * reads. `None` stands for an absent or null field; for `additives_tags` it
   * also stands for a value that is not an array, which `Array.isArray` rejects.
   */
  datatype ProductDoc = ProductDoc(
    productName: Option<string>,          // product_name
    brands: Option<string>,               // brands
    categoriesTags: Option<seq<string>>,  // categories_tags
    quantity: Option<string>,             // quantity
    imageUrl: Option<string>,             // image_url
    imageFrontUrl: Option<string>,        // image_front_url
    imageFrontSmallUrl: Option<string>,   // image_front_small_url
    ingredientsText: Option<string>,      // ingredients_text
    additivesTags: Option<seq<string>>,   // additives_tags
    nutritionGradeFr: Option<string>,     // nutrition_grade_fr
    novaGroup: Option<int>)               // nova_group

  /** The parsed response body; only its `product` field is read. */
  datatype Response = Response(product: Option<ProductDoc>)

  /** JavaScript truthiness of an optional string: present and not empty. */
  predicate Truthy(s: Option<string>) { s.Some? && s.value != "" }

  /** `s || fallback` for an optional string. */
  function OrElse(s: Option<string>, fallback: string): string
  {
    if Truthy(s) then s.value else fallback
  }

  // ---------------------------------------------------------------------
  // Risk level (calculateRiskLevel)
  // ---------------------------------------------------------------------

  /**
   * `calculateRiskLevel`: a missing document is "medium"; otherwise the raw
   * grade (or '' when it is falsy) is compared with the lower-case letters.
   */
  function RiskLevelOf(data: Option<ProductDoc>): RiskLevel
  {
    match data
    case None => Medium
    case Some(d) =>
      var grade := OrElse(d.nutritionGradeFr, "");
      if grade == "a" || grade == "b" then Low
      else if grade == "c" then Medium
      else High
  }

  /**
   * Which grade gives which level, in both directions: "a" or "b" give low,
   * "c" or no document give medium, and everything else, including a missing,
   * empty or upper-case grade, gives high.
   */
  lemma RiskLevelByGrade(data: Option<ProductDoc>)
    ensures RiskLevelOf(data) == Low
            <==> data.Some? && data.value.nutritionGradeFr in {Some("a"), Some("b")}
    ensures RiskLevelOf(data) == Medium
            <==> data.None? || data.value.nutritionGradeFr == Some("c")
    ensures RiskLevelOf(data) == High
            <==> data.Some? && data.value.nutritionGradeFr !in {Some("a"), Some("b"), Some("c")}
  {
  }

  // ---------------------------------------------------------------------
  // Additive codes (extractAdditives): the pattern /e(\d+[a-z]?)/i
  // ---------------------------------------------------------------------

  predicate IsE(c: char) { c == 'e' || c == 'E' }

  /** A match of the pattern can start at `p`: an e or E followed by a digit. */
  predicate MatchesAt(tag: string, p: int)
  {
    0 <= p && p + 1 < |tag| && IsE(tag[p]) && IsDigit(tag[p + 1])
  }

  /** The leftmost position at or after `from` where a match starts. */
  function FirstMatchFrom(tag: string, from: nat): (r: Option<nat>)
    ensures r.Some? ==> from <= r.value && MatchesAt(tag, r.value)
                        && forall p :: from <= p < r.value ==> !MatchesAt(tag, p)
    ensures r.None? ==> forall p :: from <= p ==> !MatchesAt(tag, p)
    decreases |tag| - from
  {
    if from + 1 >= |tag| then None
    else if MatchesAt(tag, from) then Some(from)
    else FirstMatchFrom(tag, from + 1)
  }

  /** The end of the longest run of digits that starts at `j` (greedy `\d+`). */
  function DigitsEnd(tag: string, j: nat): (k: nat)
    requires j <= |tag|
    ensures j <= k <= |tag|
    ensures forall i :: j <= i < k ==> IsDigit(tag[i])
    ensures k == |tag| || !IsDigit(tag[k])
    decreases |tag| - j
  {
    if j < |tag| && IsDigit(tag[j]) then DigitsEnd(tag, j + 1) else j
  }

  /** Capture group 1 of the match that starts at `p`. */
  function GroupAt(tag: string, p: nat): string
    requires MatchesAt(tag, p)
  {
    var q := DigitsEnd(tag, p + 1);
    if q < |tag| && IsLetter(tag[q]) then tag[p + 1..q + 1] else tag[p + 1..q]
  }

  /** `tag.match(/e(\d+[a-z]?)/i)`, giving capture group 1 when there is a match. */
  function AdditiveGroup(tag: string): Option<string>
  {
    match FirstMatchFrom(tag, 0)
    case None => None
    case Some(p) => Some(GroupAt(tag, p))
  }

  /** The code one tag contributes: `E${match[1]}`.toUpperCase(). */
  function AdditiveCode(tag: string): Option<string>
  {
    match AdditiveGroup(tag)
    case None => None
    case Some(g) => Some(ToUpper("E" + g))
  }

  /** What one tag adds to the list: its code, or nothing. */
  function TagCodes(tag: string): seq<string>
  {
    match AdditiveCode(tag)
    case Some(c) => [c]
    case None => []
  }

  /** The codes of the tags, in tag order. */
  function AdditiveCodes(tags: seq<string>): seq<string>
  {
    FlatMap(TagCodes, tags)
  }

  /** `xs.flatMap(f)`. */
  function FlatMap<T, U>(f: T -> seq<U>, xs: seq<T>): seq<U>
  {
    if xs == [] then [] else f(xs[0]) + FlatMap(f, xs[1..])
  }

  lemma {:induction false} FlatMapAppend<T, U>(f: T -> seq<U>, a: seq<T>, b: seq<T>)
    ensures FlatMap(f, a + b) == FlatMap(f, a) + FlatMap(f, b)
  {
    if a == [] {
      assert a + b == b;
    } else {
      var x, xs := a[0], a[1..];
      assert (a + b)[0] == x && (a + b)[1..] == xs + b;
      calc {
        FlatMap(f, a + b);
        f(x) + FlatMap(f, xs + b);
        { FlatMapAppend(f, xs, b); }
        f(x) + (FlatMap(f, xs) + FlatMap(f, b));
        (f(x) + FlatMap(f, xs)) + FlatMap(f, b);
      }
    }
  }

  /** `extractAdditives`: no codes when the tag array is missing. */
  function AdditivesOf(additivesTags: Option<seq<string>>): seq<string>
  {
    match additivesTags
    case None => []
    case Some(tags) => AdditiveCodes(tags)
  }

  /** The leftmost position of `tag` at which a match starts. */
  predicate LeftmostMatch(tag: string, p: int)
  {
    MatchesAt(tag, p) && forall q :: 0 <= q < p ==> !MatchesAt(tag, q)
  }

  /**
   * `g` is what the greedy group `(\d+[a-z]?)` captures at position `j`: one
   * or more digits, then at most one letter; when it ends in a digit, the next
   * character is neither a digit nor a letter.
   */
  predicate GreedyCapture(tag: string, j: nat, g: string)
  {
    && j + |g| <= |tag| && tag[j..j + |g|] == g
    && |g| >= 1 && IsDigit(g[0])
    && (forall k :: 0 <= k < |g| - 1 ==> IsDigit(g[k]))
    && (IsDigit(g[|g| - 1]) || IsLetter(g[|g| - 1]))
    && (j + |g| < |tag| && IsDigit(g[|g| - 1]) ==>
          !IsDigit(tag[j + |g|]) && !IsLetter(tag[j + |g|]))
  }

  /** The shape of an additive code: "E", one or more digits, at most one upper-case letter. */
  predicate IsAdditiveCode(c: string)
  {
    && |c| >= 2 && c[0] == 'E' && IsDigit(c[1])
    && forall k :: 1 <= k < |c| ==> IsDigit(c[k]) || (k == |c| - 1 && IsUpper(c[k]))
  }

  /** A tag yields nothing exactly when no e or E in it is followed by a digit. */
  lemma AdditiveGroupAbsent(tag: string)
    ensures AdditiveGroup(tag).None? <==> forall p :: !MatchesAt(tag, p)
  {
    var r := FirstMatchFrom(tag, 0);
    if r.None? {
      forall p ensures !MatchesAt(tag, p) {
        if p >= 0 { assert !MatchesAt(tag, p); }
      }
    }
  }

  /** The group is the leftmost, greedy capture of the pattern. */
  lemma AdditiveGroupIsLeftmostGreedy(tag: string)
    ensures AdditiveGroup(tag).Some? ==>
              exists p :: LeftmostMatch(tag, p) && GreedyCapture(tag, p + 1, AdditiveGroup(tag).value)
  {
    var r := FirstMatchFrom(tag, 0);
    if r.Some? {
      var p := r.value;
      assert LeftmostMatch(tag, p);
      GroupAtIsGreedy(tag, p);
    }
  }

  /** The group read at a match is the greedy capture there. */
  lemma GroupAtIsGreedy(tag: string, p: nat)
    requires MatchesAt(tag, p)
    ensures GreedyCapture(tag, p + 1, GroupAt(tag, p))
  {
    var j := p + 1;
    var q := DigitsEnd(tag, j);
    var g := GroupAt(tag, p);
    assert IsDigit(tag[j]);
    if q < |tag| && IsLetter(tag[q]) {
      assert g == tag[j..q + 1];
      assert forall k :: 0 <= k < |g| ==> g[k] == tag[j + k];
      assert g[|g| - 1] == tag[q] && !IsDigit(tag[q]);
    } else {
      assert g == tag[j..q];
      assert forall k :: 0 <= k < |g| ==> g[k] == tag[j + k];
      assert j + |g| == q;
    }
  }

  /** Every code has the shape "E" + digits + an optional upper-case letter. */
  lemma AdditiveCodeShape(tag: string)
    ensures AdditiveCode(tag).Some? ==> IsAdditiveCode(AdditiveCode(tag).value)
  {
    if AdditiveGroup(tag).Some? {
      AdditiveGroupIsLeftmostGreedy(tag);
      var g := AdditiveGroup(tag).value;
      var c := ToUpper("E" + g);
      assert c[0] == 'E';
      forall k | 1 <= k < |c|
        ensures IsDigit(c[k]) || (k == |c| - 1 && IsUpper(c[k]))
      {
        assert c[k] == UpperChar(g[k - 1]);
      }
    }
  }

  /** The codes of a concatenation are the concatenation of the codes: tag order is kept. */
  lemma AdditiveCodesAppend(a: seq<string>, b: seq<string>)
    ensures AdditiveCodes(a + b) == AdditiveCodes(a) + AdditiveCodes(b)
  {
    FlatMapAppend(TagCodes, a, b);
  }

  /** One tag adds at most one code, and only a well-formed one. */
  lemma TagCodesSpec(tag: string)
    ensures |TagCodes(tag)| <= 1
    ensures TagCodes(tag) == [] <==> AdditiveCode(tag).None?
    ensures forall c :: c in TagCodes(tag) ==> IsAdditiveCode(c)
  {
    AdditiveCodeShape(tag);
  }

  /** At most one code per tag, and every code well formed. */
  lemma {:induction false} AdditiveCodesBound(tags: seq<string>)
    ensures |AdditiveCodes(tags)| <= |tags|
    ensures forall i :: 0 <= i < |AdditiveCodes(tags)| ==> IsAdditiveCode(AdditiveCodes(tags)[i])
  {
    if tags != [] {
      var h, r := TagCodes(tags[0]), AdditiveCodes(tags[1..]);
      AdditiveCodesBound(tags[1..]);
      TagCodesSpec(tags[0]);
      assert AdditiveCodes(tags) == h + r;
      forall i | 0 <= i < |h + r| ensures IsAdditiveCode((h + r)[i]) {
        if i < |h| {
          assert (h + r)[i] in h;
        } else {
          assert (h + r)[i] == r[i - |h|];
        }
      }
    }
  }

  /**
   * No codes at all exactly when no tag has a match, and one code per tag
   * exactly when every tag has one.
   */
  lemma {:induction false} AdditiveCodesCount(tags: seq<string>)
    ensures AdditiveCodes(tags) == [] <==> forall i :: 0 <= i < |tags| ==> AdditiveCode(tags[i]).None?
    ensures |AdditiveCodes(tags)| == |tags| <==> forall i :: 0 <= i < |tags| ==> AdditiveCode(tags[i]).Some?
  {
    if tags != [] {
      var h, r := TagCodes(tags[0]), AdditiveCodes(tags[1..]);
      AdditiveCodesCount(tags[1..]);
      AdditiveCodesBound(tags[1..]);
      TagCodesSpec(tags[0]);
      assert AdditiveCodes(tags) == h + r;
      assert forall i :: 0 < i < |tags| ==> tags[i] == tags[1..][i - 1];
      assert forall i :: 0 <= i < |tags[1..]| ==> tags[1..][i] == tags[i + 1];
    }
  }

  /**
   * `extractAdditives` as the source writes it: a loop over the tags that
   * pushes one code per matching tag.
   */
  method ExtractAdditives(data: ProductDoc) returns (additives: seq<string>)
    ensures additives == AdditivesOf(data.additivesTags)
    ensures data.additivesTags.None? ==> additives == []
  {
    additives := [];
    if data.additivesTags.Some? {
      var tags := data.additivesTags.value;
      for i := 0 to |tags|
        invariant additives == AdditiveCodes(tags[..i])
      {
        var m := AdditiveGroup(tags[i]);
        if m.Some? {
          additives := additives + [ToUpper("E" + m.value)];
        }
        AdditiveCodesAppend(tags[..i], [tags[i]]);
        assert AdditiveCodes([tags[i]]) == TagCodes(tags[i]) by {
          assert [tags[i]][0] == tags[i] && [tags[i]][1..] == [];
        }
        assert tags[..i + 1] == tags[..i] + [tags[i]];
      }
      assert tags[..|tags|] == tags;
    }
  }

  /** The leftmost match of a tag, from the positions before it. */
  lemma FirstMatchAt(tag: string, p: nat)
    requires MatchesAt(tag, p)
    requires forall q :: 0 <= q < p ==> !MatchesAt(tag, q)
    ensures FirstMatchFrom(tag, 0) == Some(p)
  {
  }

  /** A tag's code from its leftmost match and that match's group. */
  lemma AdditiveCodeFrom(tag: string, p: nat, group: string)
    requires MatchesAt(tag, p)
    requires forall q :: 0 <= q < p ==> !MatchesAt(tag, q)
    requires GroupAt(tag, p) == group
    ensures AdditiveCode(tag) == Some(ToUpper("E" + group))
  {
    FirstMatchAt(tag, p);
  }

  lemma ExampleE100()
    ensures AdditiveCode("en:e100") == Some("E100")
  {
    var t := "en:e100";
    assert !MatchesAt(t, 0) && !MatchesAt(t, 1) && !MatchesAt(t, 2) && MatchesAt(t, 3);
    assert DigitsEnd(t, 4) == 7;
    AdditiveCodeFrom(t, 3, "100");
    assert ToUpper("E100") == "E100";
  }

  lemma ExampleE150D()
    ensures AdditiveCode("en:e150d") == Some("E150D")
  {
    var t := "en:e150d";
    assert !MatchesAt(t, 0) && !MatchesAt(t, 1) && !MatchesAt(t, 2) && MatchesAt(t, 3);
    assert DigitsEnd(t, 4) == 7;
    AdditiveCodeFrom(t, 3, "150d");
    assert ToUpper("E150d") == "E150D";
  }

  lemma ExampleE338()
    ensures AdditiveCode("en:e338") == Some("E338")
  {
    var t := "en:e338";
    assert !MatchesAt(t, 0) && !MatchesAt(t, 1) && !MatchesAt(t, 2) && MatchesAt(t, 3);
    assert DigitsEnd(t, 4) == 7;
    AdditiveCodeFrom(t, 3, "338");
    assert ToUpper("E338") == "E338";
  }

  lemma ExampleNoCode()
    ensures AdditiveCode("en:sugar") == None
  {
    assert forall p :: !MatchesAt("en:sugar", p);
    AdditiveGroupAbsent("en:sugar");
  }

  /**
   * "en:e100" gives "E100" (the source's own example), a trailing letter is
   * upper-cased, and a tag without an e followed by a digit gives nothing.
   */
  lemma AdditiveCodeExamples()
    ensures AdditiveCode("en:e100") == Some("E100")
    ensures AdditiveCode("en:e150d") == Some("E150D")
    ensures AdditiveCode("en:e338") == Some("E338")
    ensures AdditiveCode("en:sugar") == None
  {
    ExampleE100();
    ExampleE150D();
    ExampleE338();
    ExampleNoCode();
  }

  // ---------------------------------------------------------------------
  // Scores (calculateScores)
  // ---------------------------------------------------------------------

  /** The three scores of the analysis. */
  datatype Scores = Scores(nutriScore: NutriScore, novaScore: int, foodScore: int)

  /** `['A', 'B', 'C', 'D', 'E'].includes(grade)`, giving the letter it names. */
  function LetterOf(grade: string): Option<NutriScore>
  {
    if grade == "A" then Some(A)
    else if grade == "B" then Some(B)
    else if grade == "C" then Some(C)
    else if grade == "D" then Some(D)
    else if grade == "E" then Some(E)
    else None
  }

  /** The one-letter string of a Nutri-Score. */
  function LetterName(n: NutriScore): string
  {
    match n
    case A => "A"
    case B => "B"
    case C => "C"
    case D => "D"
    case E => "E"
  }

  /** The Nutri-Score: the upper-cased grade when it is a letter A-E, else C. */
  function NutriScoreOf(grade: Option<string>): NutriScore
  {
    if Truthy(grade) then
      match LetterOf(ToUpper(grade.value))
      case Some(n) => n
      case None => C
    else C
  }

  /** The NOVA score: `nova_group` when it lies in [1, 4], else 3. */
  function NovaScoreOf(nova: Option<int>): int
  {
    if nova.Some? && nova.value != 0 && nova.value >= 1 && nova.value <= 4 then nova.value else 3
  }

  /** `scoreMapping`. */
  function ScoreMapping(n: NutriScore): int
  {
    match n
    case A => 100
    case B => 75
    case C => 50
    case D => 25
    case E => 0
  }

  /** `scoreMapping[nutriScore] || 50`: the 0 of grade E is falsy, so E gives 50. */
  function FoodScoreOf(n: NutriScore): int
  {
    var mapped := ScoreMapping(n);
    if mapped != 0 then mapped else 50
  }

  /** The result of `calculateScores`. */
  function ScoresOf(data: ProductDoc): Scores
  {
    var nutri := NutriScoreOf(data.nutritionGradeFr);
    Scores(nutri, NovaScoreOf(data.novaGroup), FoodScoreOf(nutri))
  }

  /** `calculateScores` as the source writes it: defaults, then reassignments. */
  method CalculateScores(data: ProductDoc) returns (scores: Scores)
    ensures scores == ScoresOf(data)
    ensures 1 <= scores.novaScore <= 4
    ensures scores.foodScore in {25, 50, 75, 100}
  {
    var nutriScore := C;
    var novaScore := 3;
    var foodScore := 50;
    if Truthy(data.nutritionGradeFr) {
      var grade := ToUpper(data.nutritionGradeFr.value);
      var letter := LetterOf(grade);
      if letter.Some? {
        nutriScore := letter.value;
      }
    }
    if data.novaGroup.Some? && data.novaGroup.value != 0
       && data.novaGroup.value >= 1 && data.novaGroup.value <= 4 {
      novaScore := data.novaGroup.value;
    }
    var mapped := ScoreMapping(nutriScore);
    foodScore := if mapped != 0 then mapped else 50;
    scores := Scores(nutriScore, novaScore, foodScore);
  }

  /** A grade letter, in either case. */
  predicate IsGradeLetter(g: string)
  {
    g in {"a", "b", "c", "d", "e", "A", "B", "C", "D", "E"}
  }

  lemma UpperCharOnto(c: char, u: char)
    requires UpperChar(c) == u && IsUpper(u)
    ensures c == u || c as int == u as int + 32
  {
  }

  /** Upper-casing gives a grade letter A-E only from that letter in either case. */
  lemma LetterOfUpper(g: string)
    ensures LetterOf(ToUpper(g)).Some? <==> IsGradeLetter(g)
    ensures LetterOf(ToUpper(g)).Some? ==> LetterName(LetterOf(ToUpper(g)).value) == ToUpper(g)
  {
    var u := ToUpper(g);
    if LetterOf(u).Some? {
      assert |u| == 1 && |g| == 1;
      UpperCharOnto(g[0], u[0]);
      assert g == [g[0]];
    }
    if IsGradeLetter(g) {
      assert u == [UpperChar(g[0])];
    }
  }

  /**
   * The Nutri-Score is the upper-cased grade when the grade is one letter
   * A-E in either case, and C otherwise (missing, empty or any other text).
   */
  lemma NutriScoreSpec(grade: Option<string>)
    ensures grade.Some? && IsGradeLetter(grade.value) ==>
              LetterName(NutriScoreOf(grade)) == ToUpper(grade.value)
    ensures !(grade.Some? && IsGradeLetter(grade.value)) ==> NutriScoreOf(grade) == C
  {
    if grade.Some? {
      LetterOfUpper(grade.value);
    }
  }

  /** The NOVA score is `nova_group` exactly when that lies in [1, 4]; otherwise 3. */
  lemma NovaScoreSpec(nova: Option<int>)
    ensures 1 <= NovaScoreOf(nova) <= 4
    ensures nova.Some? && 1 <= nova.value <= 4 ==> NovaScoreOf(nova) == nova.value
    ensures !(nova.Some? && 1 <= nova.value <= 4) ==> NovaScoreOf(nova) == 3
  {
  }

  /**
   * The food score follows the mapping for A-D, and E falls back to 50, so
   * the score is always one of 25, 50, 75, 100 and never the mapping's 0.
   */
  lemma FoodScoreSpec(n: NutriScore)
    ensures FoodScoreOf(n) in {25, 50, 75, 100}
    ensures n != E ==> FoodScoreOf(n) == ScoreMapping(n)
    ensures FoodScoreOf(E) == 50 != ScoreMapping(E)
  {
  }

  /**
   * For a lower-case grade letter the risk level agrees with the Nutri-Score
   * (A, B low; C medium; D, E high). An upper-case letter gives the same
   * Nutri-Score but a high risk level.
   */
  lemma RiskLevelAgainstNutriScore(d: ProductDoc)
    requires d.nutritionGradeFr.Some? && IsGradeLetter(d.nutritionGradeFr.value)
    ensures IsLower(d.nutritionGradeFr.value[0]) ==>
              RiskLevelOf(Some(d)) == (match NutriScoreOf(d.nutritionGradeFr)
                                       case A => Low case B => Low case C => Medium
                                       case D => High case E => High)
    ensures IsUpper(d.nutritionGradeFr.value[0]) ==> RiskLevelOf(Some(d)) == High
  {
    NutriScoreSpec(d.nutritionGradeFr);
  }

  // ---------------------------------------------------------------------
  // Ingredients, good and bad ingredients, warnings, image
  // ---------------------------------------------------------------------

  /** `ingredients_text.split(',').map(i => i.trim())`, or [] when the text is falsy. */
  function IngredientsOf(text: Option<string>): seq<string>
  {
    if Truthy(text) then TrimEach(Split(text.value, ',')) else []
  }

  /** `parts.map(i => i.trim())`. */
  function TrimEach(parts: seq<string>): (r: seq<string>)
    ensures |r| == |parts|
    ensures forall i :: 0 <= i < |parts| ==> r[i] == Trim(parts[i])
  {
    if parts == [] then [] else [Trim(parts[0])] + TrimEach(parts[1..])
  }

  /**
   * No ingredients without a text; otherwise one per comma-separated piece
   * (commas + 1 of them), each trimmed and free of commas.
   */
  lemma IngredientsSpec(text: Option<string>)
    ensures !Truthy(text) ==> IngredientsOf(text) == []
    ensures Truthy(text) ==> |IngredientsOf(text)| == Count(text.value, ',') + 1
    ensures forall i :: 0 <= i < |IngredientsOf(text)| ==>
              var x := IngredientsOf(text)[i];
              ',' !in x && Trim(x) == x
    ensures Truthy(text) ==>
              forall i :: 0 <= i < |IngredientsOf(text)| ==>
                IngredientsOf(text)[i] == Trim(Split(text.value, ',')[i])
  {
    if Truthy(text) {
      var parts := Split(text.value, ',');
      SplitLength(text.value, ',');
      SplitPiecesHaveNoSeparator(text.value, ',');
      forall i | 0 <= i < |parts|
        ensures ',' !in Trim(parts[i]) && Trim(Trim(parts[i])) == Trim(parts[i])
      {
        TrimSpec(parts[i]);
        TrimIdempotent(parts[i]);
      }
    }
  }

  /** Whether an ingredient is "good": its lower-case form mentions vitamin, protein or fiber. */
  predicate IsGoodIngredient(i: string)
  {
    var l := ToLower(i);
    Contains(l, "vitamin") || Contains(l, "protein") || Contains(l, "fiber")
  }

  /** The `goodIngredients` filter. */
  function GoodIngredients(ingredients: seq<string>): seq<string>
  {
    if ingredients == [] then []
    else
      (if IsGoodIngredient(ingredients[0]) then [ingredients[0]] else [])
      + GoodIngredients(ingredients[1..])
  }

  /** `a` is `b` with some elements left out, in the same order. */
  predicate IsSublist<T(==)>(a: seq<T>, b: seq<T>)
  {
    a == [] || (b != [] && ((a[0] == b[0] && IsSublist(a[1..], b[1..])) || IsSublist(a, b[1..])))
  }

  /**
   * The good ingredients are an order-preserving sublist of the ingredients
   * holding every good ingredient as often as it occurs, and nothing else.
   */
  lemma {:induction false} GoodIngredientsSpec(ingredients: seq<string>)
    ensures IsSublist(GoodIngredients(ingredients), ingredients)
    ensures forall x :: multiset(GoodIngredients(ingredients))[x]
                        == if IsGoodIngredient(x) then multiset(ingredients)[x] else 0
    ensures forall x :: x in GoodIngredients(ingredients) <==> x in ingredients && IsGoodIngredient(x)
  {
    if ingredients != [] {
      var x0, rest := ingredients[0], ingredients[1..];
      GoodIngredientsSpec(rest);
      assert ingredients == [x0] + rest;
      var g := GoodIngredients(ingredients);
      if IsGoodIngredient(x0) {
        assert g == [x0] + GoodIngredients(rest);
        assert g[0] == x0 && g[1..] == GoodIngredients(rest);
        assert ingredients[1..] == rest;
        assert IsSublist(g[1..], ingredients[1..]);
      } else {
        assert g == GoodIngredients(rest);
        assert g == [] || IsSublist(g, ingredients[1..]);
      }
      forall x ensures x in g <==> x in ingredients && IsGoodIngredient(x) {
        assert x in g <==> multiset(g)[x] > 0;
        assert x in ingredients <==> multiset(ingredients)[x] > 0;
      }
    }
  }

  /** An ingredient whose lower-case form has one of the keywords in it is good. */
  lemma KeywordMakesGood(i: string, pre: string, k: string, post: string)
    requires k == "vitamin" || k == "protein" || k == "fiber"
    requires ToLower(i) == pre + k + post
    ensures IsGoodIngredient(i)
  {
    ContainsInfix(pre, k, post);
  }

  /** An ingredient whose lower-case form has none of the keywords in it is not good. */
  lemma NoKeywordNotGood(i: string)
    requires !Contains(ToLower(i), "vitamin") && !Contains(ToLower(i), "protein")
    requires !Contains(ToLower(i), "fiber")
    ensures !IsGoodIngredient(i)
  {
  }

  /** Any text that starts with "Vitamin" is good. */
  lemma VitaminPrefixGood(rest: string)
    ensures IsGoodIngredient("Vitamin" + rest)
  {
    assert "Vitamin" == "V" + "itamin";
    ToLowerAppend("Vitamin", rest);
    ToLowerAppend("V", "itamin");
    ToLowerUnchanged("itamin");
    assert ToLower("Vitamin" + rest) == [] + "vitamin" + ToLower(rest);
    KeywordMakesGood("Vitamin" + rest, [], "vitamin", ToLower(rest));
  }

  lemma ExampleVitamin(v: string)
    requires v == "Vitamin C"
    ensures IsGoodIngredient(v)
  {
    assert v == "Vitamin" + " C";
    VitaminPrefixGood(" C");
  }

  /** Any text that starts with a lower-case keyword is good. */
  lemma KeywordPrefixGood(k: string, rest: string)
    requires k == "vitamin" || k == "protein" || k == "fiber"
    ensures IsGoodIngredient(k + rest)
  {
    ToLowerAppend(k, rest);
    ToLowerUnchanged(k);
    assert ToLower(k + rest) == [] + k + ToLower(rest);
    KeywordMakesGood(k + rest, [], k, ToLower(rest));
  }

  lemma ExampleProtein(p: string)
    requires p == "protein isolate"
    ensures IsGoodIngredient(p)
  {
    assert p == "protein" + " isolate";
    KeywordPrefixGood("protein", " isolate");
  }

  lemma ExampleSugar(s: string)
    requires s == "Sugar"
    ensures !IsGoodIngredient(s)
  {
    assert ToLower(s) == "sugar";
    NotContainsLonger("sugar", "vitamin");
    NotContainsLonger("sugar", "protein");
    assert !StartsWith("sugar", "fiber") && "sugar"[1..] == "ugar";
    NotContainsLonger("ugar", "fiber");
    NoKeywordNotGood(s);
  }

  /** Three sample ingredients: "Vitamin C" and "protein isolate" qualify, "Sugar" does not. */
  lemma GoodIngredientExamples(v: string, p: string, s: string)
    requires v == "Vitamin C" && p == "protein isolate" && s == "Sugar"
    ensures IsGoodIngredient(v) && IsGoodIngredient(p) && !IsGoodIngredient(s)
  {
    ExampleVitamin(v);
    ExampleProtein(p);
    ExampleSugar(s);
  }

  const WarningPrefix := "Contains additive "

  /** `additives.map(a => `Contains additive ${a}`)`. */
  function WarningsOf(additives: seq<string>): (r: seq<string>)
    ensures |r| == |additives|
    ensures forall i :: 0 <= i < |additives| ==> r[i] == WarningPrefix + additives[i]
  {
    if additives == [] then [] else [WarningPrefix + additives[0]] + WarningsOf(additives[1..])
  }

  /** The additive a warning names. */
  function WarningAdditive(w: string): string
  {
    if StartsWith(w, WarningPrefix) then w[|WarningPrefix|..] else w
  }

  /** One warning per additive, in order, from which the additive can be read back. */
  lemma WarningsSpec(additives: seq<string>)
    ensures |WarningsOf(additives)| == |additives|
    ensures forall i :: 0 <= i < |additives| ==>
              StartsWith(WarningsOf(additives)[i], WarningPrefix)
              && WarningAdditive(WarningsOf(additives)[i]) == additives[i]
  {
    forall i | 0 <= i < |additives|
      ensures StartsWith(WarningsOf(additives)[i], WarningPrefix)
              && WarningAdditive(WarningsOf(additives)[i]) == additives[i]
    {
      var w := WarningsOf(additives)[i];
      assert w[..|WarningPrefix|] == WarningPrefix;
      assert w[|WarningPrefix|..] == additives[i];
    }
  }

  /** The image URL: the first truthy of the three image fields, else null. */
  function ImageUrlOf(d: ProductDoc): Option<string>
  {
    if Truthy(d.imageUrl) then d.imageUrl
    else if Truthy(d.imageFrontUrl) then d.imageFrontUrl
    else if Truthy(d.imageFrontSmallUrl) then d.imageFrontSmallUrl
    else None
  }

  /** The first truthy candidate, searched in order. */
  function FirstTruthy(candidates: seq<Option<string>>): (r: Option<string>)
    ensures r.Some? ==> r in candidates && r.value != ""
    ensures r.Some? ==> exists k :: 0 <= k < |candidates| && candidates[k] == r
                                    && forall j :: 0 <= j < k ==> !Truthy(candidates[j])
    ensures r.None? <==> forall i :: 0 <= i < |candidates| ==> !Truthy(candidates[i])
  {
    if candidates == [] then None
    else if Truthy(candidates[0]) then candidates[0]
    else FirstTruthy(candidates[1..])
  }

  /** The image URL is the first truthy of image_url, image_front_url, image_front_small_url. */
  lemma ImageUrlPriority(d: ProductDoc)
    ensures ImageUrlOf(d) == FirstTruthy([d.imageUrl, d.imageFrontUrl, d.imageFrontSmallUrl])
  {
    var cs := [d.imageUrl, d.imageFrontUrl, d.imageFrontSmallUrl];
    assert cs[1..] == [d.imageFrontUrl, d.imageFrontSmallUrl];
    assert cs[1..][1..] == [d.imageFrontSmallUrl];
    assert cs[1..][1..][1..] == [];
    assert FirstTruthy(cs[1..][1..]) == if Truthy(d.imageFrontSmallUrl) then d.imageFrontSmallUrl else None;
    assert FirstTruthy(cs[1..]) == if Truthy(d.imageFrontUrl) then d.imageFrontUrl else FirstTruthy(cs[1..][1..]);
  }

  /** `categories_tags?.[0] || "Other"`. */
  function CategoryOf(tags: Option<seq<string>>): string
  {
    if tags.Some? && |tags.value| > 0 && tags.value[0] != "" then tags.value[0] else "Other"
  }

  // ---------------------------------------------------------------------
  // The projection (searchProductByBarcode after the fetch)
  // ---------------------------------------------------------------------

  /** The product record built from a parsed response, or null without a `product`. */
  function ProductFromResponse(data: Response, barcode: string): Option<Product>
  {
    match data.product
    case None => None
    case Some(d) =>
      var ingredients := IngredientsOf(d.ingredientsText);
      var additives := AdditivesOf(d.additivesTags);
      var scores := ScoresOf(d);
      Some(Product(
        id := 0,
        barcode := barcode,
        name := OrElse(d.productName, "Unknown Product"),
        brand := OrElse(d.brands, "Unknown Brand"),
        category := CategoryOf(d.categoriesTags),
        size := if Truthy(d.quantity) then d.quantity else None,
        imageUrl := ImageUrlOf(d),
        ingredients := ingredients,
        additives := Some(additives),
        analysis := Analysis(
          riskLevel := RiskLevelOf(Some(d)),
          warnings := WarningsOf(additives),
          goodIngredients := GoodIngredients(ingredients),
          badIngredients := additives,
          nutriScore := Some(scores.nutriScore),
          novaScore := Some(scores.novaScore),
          foodScore := Some(scores.foodScore))))
  }

  /**
   * The record's identity and defaults: null exactly without a product; id 0
   * and the given barcode; name, brand, category and size are the document's
   * value when that is truthy and otherwise "Unknown Product", "Unknown
   * Brand", "Other" and null; a present image URL is non-empty and is the
   * first truthy image field.
   */
  lemma ProductFromResponseDefaults(data: Response, barcode: string)
    ensures ProductFromResponse(data, barcode).None? <==> data.product.None?
    ensures data.product.Some? ==>
      var p := ProductFromResponse(data, barcode).value;
      var d := data.product.value;
      && p.id == 0 && p.barcode == barcode
      && p.name != "" && p.brand != "" && p.category != ""
      && (Truthy(d.productName) ==> p.name == d.productName.value)
      && (!Truthy(d.productName) ==> p.name == "Unknown Product")
      && (Truthy(d.brands) ==> p.brand == d.brands.value)
      && (!Truthy(d.brands) ==> p.brand == "Unknown Brand")
      && (d.categoriesTags.Some? && |d.categoriesTags.value| > 0 && d.categoriesTags.value[0] != "" ==>
            p.category == d.categoriesTags.value[0])
      && (d.categoriesTags.None? || d.categoriesTags.value == [] || d.categoriesTags.value[0] == "" ==>
            p.category == "Other")
      && (Truthy(d.quantity) ==> p.size == d.quantity)
      && (!Truthy(d.quantity) ==> p.size.None?)
      && p.imageUrl == FirstTruthy([d.imageUrl, d.imageFrontUrl, d.imageFrontSmallUrl])
      && (p.imageUrl.Some? ==> p.imageUrl.value != "")
  {
    if data.product.Some? {
      ImageUrlPriority(data.product.value);
    }
  }

  /**
   * The record's analysis: bad ingredients are the additives, bounded by the
   * tags and well formed, with one warning each; good ingredients are a
   * sublist holding exactly the good ones; the scores lie in their ranges and
   * the food score follows the Nutri-Score.
   */
  lemma ProductFromResponseAnalysis(d: ProductDoc, barcode: string)
    ensures
      var p := ProductFromResponse(Response(Some(d)), barcode).value;
      && p.additives == Some(p.analysis.badIngredients)
      && (d.additivesTags.None? ==> p.analysis.badIngredients == [])
      && (d.additivesTags.Some? ==> |p.analysis.badIngredients| <= |d.additivesTags.value|)
      && (forall i :: 0 <= i < |p.analysis.badIngredients| ==> IsAdditiveCode(p.analysis.badIngredients[i]))
      && |p.analysis.warnings| == |p.analysis.badIngredients|
      && (forall i :: 0 <= i < |p.analysis.warnings| ==>
            p.analysis.warnings[i] == WarningPrefix + p.analysis.badIngredients[i])
      && IsSublist(p.analysis.goodIngredients, p.ingredients)
      && (forall x :: x in p.analysis.goodIngredients <==> x in p.ingredients && IsGoodIngredient(x))
      && p.analysis.nutriScore.Some? && p.analysis.novaScore.Some? && p.analysis.foodScore.Some?
      && 1 <= p.analysis.novaScore.value <= 4
      && p.analysis.foodScore.value in {25, 50, 75, 100}
      && p.analysis.foodScore.value == FoodScoreOf(p.analysis.nutriScore.value)
  {
    if d.additivesTags.Some? {
      AdditiveCodesBound(d.additivesTags.value);
    }
    GoodIngredientsSpec(IngredientsOf(d.ingredientsText));
    NovaScoreSpec(d.novaGroup);
    FoodScoreSpec(NutriScoreOf(d.nutritionGradeFr));
  }

  lemma ExampleSplit()
    ensures Split("Aqua, Vitamin E", ',') == ["Aqua", " Vitamin E"]
  {
    assert "Aqua, Vitamin E" == "Aqua" + [','] + " Vitamin E";
    SplitTwo("Aqua", " Vitamin E", ',');
  }

  lemma ExampleTrim()
    ensures Trim(" Vitamin E") == "Vitamin E"
    ensures Trim("Aqua") == "Aqua"
  {
    assert TrimStart(" Vitamin E") == TrimStart("Vitamin E") == "Vitamin E";
  }

  lemma ExampleIngredients()
    ensures IngredientsOf(Some("Aqua, Vitamin E")) == ["Aqua", "Vitamin E"]
  {
    ExampleSplit();
    ExampleTrim();
  }

  lemma ExampleAqua(a: string)
    requires a == "Aqua"
    ensures !IsGoodIngredient(a)
  {
    assert ToLower(a) == "aqua";
    NotContainsLonger("aqua", "vitamin");
    NotContainsLonger("aqua", "protein");
    NotContainsLonger("aqua", "fiber");
    NoKeywordNotGood(a);
  }

  lemma ExampleVitaminE(v: string)
    requires v == "Vitamin E"
    ensures IsGoodIngredient(v)
  {
    assert v == "Vitamin" + " E";
    VitaminPrefixGood(" E");
  }

  /** Of two ingredients, only the second of which is good, the filter keeps the second. */
  lemma GoodIngredientsOfTwo(a: string, b: string)
    requires !IsGoodIngredient(a) && IsGoodIngredient(b)
    ensures GoodIngredients([a, b]) == [b]
  {
    var ings := [a, b];
    assert ings[0] == a && ings[1..] == [b];
    assert [b][0] == b && [b][1..] == [];
    assert GoodIngredients([b]) == [b] + GoodIngredients([]);
    assert GoodIngredients(ings) == [] + GoodIngredients([b]);
  }

  lemma ExampleGoodIngredients(a: string, v: string)
    requires a == "Aqua" && v == "Vitamin E"
    ensures GoodIngredients([a, v]) == [v]
  {
    ExampleAqua(a);
    ExampleVitaminE(v);
    GoodIngredientsOfTwo(a, v);
  }

  lemma GradeAScores(d: ProductDoc)
    requires d.nutritionGradeFr == Some("a")
    ensures RiskLevelOf(Some(d)) == Low
    ensures ScoresOf(d).nutriScore == A && ScoresOf(d).foodScore == 100
  {
    assert ToUpper("a") == "A";
  }

  lemma GradeAIngredients(d: ProductDoc)
    requires d.ingredientsText == Some("Aqua, Vitamin E")
    ensures IngredientsOf(d.ingredientsText) == ["Aqua", "Vitamin E"]
    ensures GoodIngredients(IngredientsOf(d.ingredientsText)) == ["Vitamin E"]
  {
    ExampleIngredients();
    ExampleGoodIngredients("Aqua", "Vitamin E");
  }

  /**
   * Lower-case grade "a" and the ingredients "Aqua, Vitamin E": low risk,
   * Nutri-Score A, food score 100, and the vitamin is the one good ingredient.
   */
  lemma ScenarioGradeA(d: ProductDoc, barcode: string)
    requires d.ingredientsText == Some("Aqua, Vitamin E")
    requires d.additivesTags.None? && d.nutritionGradeFr == Some("a")
    ensures var p := ProductFromResponse(Response(Some(d)), barcode).value;
            && p.ingredients == ["Aqua", "Vitamin E"]
            && p.analysis.riskLevel == Low
            && p.analysis.nutriScore == Some(A)
            && p.analysis.foodScore == Some(100)
            && p.analysis.goodIngredients == ["Vitamin E"]
            && p.analysis.warnings == []
  {
    GradeAScores(d);
    GradeAIngredients(d);
  }

  lemma ExampleGradeEAdditives()
    ensures AdditivesOf(Some(["en:e150d", "en:e338"])) == ["E150D", "E338"]
  {
    ExampleE150D();
    ExampleE338();
    var tags := ["en:e150d", "en:e338"];
    assert tags[1..] == ["en:e338"];
    assert tags[1..][1..] == [];
  }

  lemma ExampleGradeEWarnings()
    ensures WarningsOf(["E150D", "E338"]) == ["Contains additive E150D", "Contains additive E338"]
  {
    var w := WarningsOf(["E150D", "E338"]);
    assert w[0] == "Contains additive E150D";
    assert w[1] == "Contains additive E338";
  }

  lemma GradeEScores(d: ProductDoc)
    requires d.nutritionGradeFr == Some("e")
    ensures RiskLevelOf(Some(d)) == High
    ensures ScoresOf(d).nutriScore == E && ScoresOf(d).foodScore == 50
  {
    assert ToUpper("e") == "E";
  }

  lemma GradeEAdditives(d: ProductDoc)
    requires d.additivesTags == Some(["en:e150d", "en:e338"])
    ensures AdditivesOf(d.additivesTags) == ["E150D", "E338"]
    ensures WarningsOf(AdditivesOf(d.additivesTags)) == ["Contains additive E150D", "Contains additive E338"]
  {
    ExampleGradeEAdditives();
    ExampleGradeEWarnings();
  }

  /**
   * Grade "e" with the tags "en:e150d" and "en:e338": high risk, Nutri-Score
   * E, a food score of 50 where the mapping says 0, the two additives as bad
   * ingredients and one warning for each.
   */
  lemma ScenarioGradeE(d: ProductDoc, barcode: string)
    requires d.additivesTags == Some(["en:e150d", "en:e338"]) && d.nutritionGradeFr == Some("e")
    ensures var p := ProductFromResponse(Response(Some(d)), barcode).value;
            && p.analysis.riskLevel == High
            && p.analysis.nutriScore == Some(E)
            && p.analysis.foodScore == Some(50)
            && p.additives == Some(["E150D", "E338"])
            && p.analysis.badIngredients == ["E150D", "E338"]
            && p.analysis.warnings == ["Contains additive E150D", "Contains additive E338"]
  {
    GradeEScores(d);
    GradeEAdditives(d);
  }

  /** An upper-case grade: Nutri-Score A and food score 100, yet high risk. */
  lemma ScenarioUpperCaseGrade(d: ProductDoc, barcode: string)
    requires d.nutritionGradeFr == Some("A")
    ensures var p := ProductFromResponse(Response(Some(d)), barcode).value;
            p.analysis.nutriScore == Some(A) && p.analysis.foodScore == Some(100)
            && p.analysis.riskLevel == High
  {
    assert ToUpper("A") == "A";
  }
}
