/** The set of animal categories the dot-matrix chart shows, shared through
    a React context, and the toggle that switches one category on or off. */
module ActiveCategories {
  import opened Common

  datatype Category = BeefCattle | DairyCattle | Sheep | Deer

  /** The label of a category, as the type of categories spells it. */
  function Label(c: Category): (s: string)
    ensures |s| > 0
  {
    match c
    case BeefCattle => "Beef cattle"
    case DairyCattle => "Dairy cattle"
    case Sheep => "Sheep"
    case Deer => "Deer"
  }

  /** Different categories have different labels. */
  lemma LabelInjective(c: Category, d: Category)
    requires Label(c) == Label(d)
    ensures c == d
  {
  }

  /** The categories active when the provider mounts. */
  function InitialActive(): (s: set<Category>)
    ensures BeefCattle in s && DairyCattle in s && Sheep in s && Deer in s
    ensures |s| == 4
  {
    {BeefCattle, DairyCattle, Sheep, Deer}
  }

  /** Every category starts out active. */
  lemma InitialAll()
    ensures forall c: Category :: c in InitialActive()
  {
    forall c: Category
      ensures c in InitialActive()
    {
      match c
      case BeefCattle =>
      case DairyCattle =>
      case Sheep =>
      case Deer =>
    }
  }

  /** `toggleCategory`: a copy of the previous set with `cat` removed if it
      was there and added if it was not. */
  function Toggle(prev: set<Category>, cat: Category): (next: set<Category>)
    ensures cat in next <==> cat !in prev
    ensures forall c :: c != cat ==> (c in next <==> c in prev)
  {
    if cat in prev then prev - {cat} else prev + {cat}
  }

  /** Toggling the same category twice gives back the set it started from. */
  lemma ToggleTwice(prev: set<Category>, cat: Category)
    ensures Toggle(Toggle(prev, cat), cat) == prev
  {
  }

  /** What the context hands to its consumers. */
  datatype Context = Context(activeCategories: set<Category>)

  /** `useActiveCategories`: the context of the nearest provider, or the
      error thrown when there is none. */
  function UseActiveCategories(ctx: Option<Context>): (r: Result<Context, string>)
    ensures r.Success? <==> ctx.Some?
    ensures r.Success? ==> r.value == ctx.value
    ensures r.Failure? ==> r.error == "useActiveCategories must be used within a ActiveCategoriesProvider"
  {
    match ctx
    case None => Failure("useActiveCategories must be used within a ActiveCategoriesProvider")
    case Some(c) => Success(c)
  }
}
