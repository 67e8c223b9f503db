/**
 * The record shapes shared by the client and the server (shared/schema.ts),
 * extended with the fields the Open Food Facts projection emits.
 */
module Schema {
  import opened Wrappers

  /** `analysis.riskLevel`: one of "low", "medium", "high". */
  datatype RiskLevel = Low | Medium | High

  /** A Nutri-Score letter. */
  datatype NutriScore = A | B | C | D | E

  /**
   * The analysis record. The sample records of the store carry only the first
   * four fields; the projection also sets the three scores.
   */
  datatype Analysis = Analysis(
    riskLevel: RiskLevel,
    warnings: seq<string>,
    goodIngredients: seq<string>,
    badIngredients: seq<string>,
    nutriScore: Option<NutriScore>,
    novaScore: Option<int>,
    foodScore: Option<int>)

  /**
   * A product record. An insert record has the same shape: the store
   * overwrites its `id`, as the spread `{ ...insertProduct, id }` does.
   */
  datatype Product = Product(
    id: int,
    barcode: string,
    name: string,
    brand: string,
    category: string,
    size: Option<string>,
    imageUrl: Option<string>,
    ingredients: seq<string>,
    additives: Option<seq<string>>,
    analysis: Analysis)

  /** A user's preferences, replaced as a whole by an update. */
  datatype Preferences = Preferences(allergies: seq<string>, concerns: seq<string>)

  /**
   * A user record; `preferences` is a nullable, optional column, and the
   * in-memory store applies no default to it.
   */
  datatype User = User(
    id: int,
    username: string,
    password: string,
    preferences: Option<Preferences>)
}
