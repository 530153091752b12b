/**
 * The article registry: the list of imported article modules, their metadata, the map from
 * slug to article built with `reduce` and object spread, and lookup by slug.
 *
 * The article modules are compiled `.mdx` files whose front matter is not part of this
 * model, so every operation takes `load`, which gives the module each import yields.
 */
module Articles {

  import opened Wrappers

  /** An article's front matter. */
  datatype Post = Post(description: string, slug: string, title: string)

  datatype Attributes = Attributes(meta: Post)

  /** An imported article module; its render function, headers and links are not modelled. */
  datatype Mdx = Mdx(attributes: Attributes, filename: string, meta: Post)

  /** The article modules the site imports. */
  datatype ArticleModule =
    | LogAndContinue
    | DebugDrivenDevelopment
    | ThePartyMathTrick
    | BuildingAMonad
    | MonadsAreMonoidsInTheCategoryOfEndofunctors
    | EngineersSchrodingersCat

  /** The listing order of `getArticles`. */
  const ArticleOrder: seq<ArticleModule> := [
    LogAndContinue,
    DebugDrivenDevelopment,
    ThePartyMathTrick,
    BuildingAMonad,
    MonadsAreMonoidsInTheCategoryOfEndofunctors,
    EngineersSchrodingersCat
  ]

  /** `getArticles`: every imported article module, once each, in listing order. */
  function GetArticles(load: ArticleModule -> Mdx): (articles: seq<Mdx>)
    ensures |articles| == 6
    ensures forall i :: 0 <= i < |articles| ==> articles[i] == load(ArticleOrder[i])
    ensures forall m: ArticleModule :: load(m) in articles
  {
    var articles := seq(|ArticleOrder|, i requires 0 <= i < |ArticleOrder| => load(ArticleOrder[i]));
    EveryModuleListed(load, articles);
    articles
  }

  lemma EveryModuleListed(load: ArticleModule -> Mdx, articles: seq<Mdx>)
    requires |articles| == 6
    requires forall i :: 0 <= i < |articles| ==> articles[i] == load(ArticleOrder[i])
    ensures forall m: ArticleModule :: load(m) in articles
  {
    forall m: ArticleModule ensures load(m) in articles {
      var i := match m
        case LogAndContinue => 0
        case DebugDrivenDevelopment => 1
        case ThePartyMathTrick => 2
        case BuildingAMonad => 3
        case MonadsAreMonoidsInTheCategoryOfEndofunctors => 4
        case EngineersSchrodingersCat => 5;
      assert articles[i] == load(m);
    }
  }

  /** `getPostMetadata`: a field-by-field copy of `attributes.meta` (not of the module's own `meta`). */
  function GetPostMetadata(mod: Mdx): (post: Post)
    ensures post.slug == mod.attributes.meta.slug
    ensures post.title == mod.attributes.meta.title
    ensures post.description == mod.attributes.meta.description
  {
    Post(mod.attributes.meta.description, mod.attributes.meta.slug, mod.attributes.meta.title)
  }

  /** `getArticleSlug(getPostMetadata(mod))`: the key an article is stored under. */
  function Slug(mod: Mdx): (slug: string)
    ensures slug == mod.attributes.meta.slug
  {
    GetPostMetadata(mod).slug
  }

  /** The metadata of each article, in list order (`map(getPostMetadata)`). */
  function MetadataList(articles: seq<Mdx>): (posts: seq<Post>)
    ensures |posts| == |articles|
    ensures forall i :: 0 <= i < |articles| ==> posts[i] == GetPostMetadata(articles[i])
  {
    if articles == [] then [] else [GetPostMetadata(articles[0])] + MetadataList(articles[1..])
  }

  /** `getPosts`: one metadata record per article of `getArticles`, same order. */
  function GetPosts(load: ArticleModule -> Mdx): (posts: seq<Post>)
    ensures |posts| == |GetArticles(load)|
    ensures forall i :: 0 <= i < |posts| ==> posts[i] == GetArticles(load)[i].attributes.meta
  {
    MetadataList(GetArticles(load))
  }

  /** `getArticleData`: the same list as `getPosts`, built through a local variable. */
  function GetArticleData(load: ArticleModule -> Mdx): (articleData: seq<Post>)
    ensures articleData == GetPosts(load)
  {
    var mdxArticles := GetArticles(load);
    MetadataList(mdxArticles)
  }

  /** The position of the last article whose slug is `slug`, or -1 when none has it. */
  function LastIndexOfSlug(articles: seq<Mdx>, slug: string): (i: int)
    ensures -1 <= i < |articles|
    ensures 0 <= i ==> Slug(articles[i]) == slug
    ensures forall j :: i < j < |articles| ==> Slug(articles[j]) != slug
  {
    if articles == [] then -1
    else if Slug(articles[|articles| - 1]) == slug then |articles| - 1
    else LastIndexOfSlug(articles[..|articles| - 1], slug)
  }

  function Slugs(articles: seq<Mdx>): set<string>
  {
    set mod | mod in articles :: Slug(mod)
  }

  /** A slug belongs to the list exactly when some position carries it last. */
  lemma SlugsHaveLastIndex(articles: seq<Mdx>)
    ensures forall s :: s in Slugs(articles) <==> 0 <= LastIndexOfSlug(articles, s)
  {
    forall s | s in Slugs(articles) ensures 0 <= LastIndexOfSlug(articles, s) {
      var mod :| mod in articles && Slug(mod) == s;
      var j :| 0 <= j < |articles| && articles[j] == mod;
    }
  }

  /**
   * `reduce((acc, curr) => ({...acc, [slug(curr)]: curr}), {})`: a slug is a key exactly
   * when some article carries it, and under it sits the last article carrying it, since a
   * later spread overwrites.
   */
  function SlugMap(articles: seq<Mdx>): (m: map<string, Mdx>)
    ensures forall s :: s in m <==> 0 <= LastIndexOfSlug(articles, s)
    ensures forall s :: s in m ==> m[s] == articles[LastIndexOfSlug(articles, s)]
  {
    if articles == [] then map[]
    else
      var prefix, curr := articles[..|articles| - 1], articles[|articles| - 1];
      SlugMap(prefix)[Slug(curr) := curr]
  }

  /** `getArticleMap`: the slug map of `getArticles`. */
  function GetArticleMap(load: ArticleModule -> Mdx): (m: map<string, Mdx>)
    ensures m.Keys == Slugs(GetArticles(load))
    ensures forall s :: s in m ==> m[s] in GetArticles(load) && Slug(m[s]) == s
    ensures forall s :: s in m ==> m[s] == GetArticles(load)[LastIndexOfSlug(GetArticles(load), s)]
  {
    SlugsHaveLastIndex(GetArticles(load));
    SlugMap(GetArticles(load))
  }

  // ---------------------------------------------------------------------------------------
  // Lookup by slug
  // ---------------------------------------------------------------------------------------

  /** What reading a property of a plain JavaScript object yields. */
  datatype JsValue = Found(article: Mdx) | Undefined | Inherited(name: string)

  /** Properties every object literal inherits from `Object.prototype`. */
  const ObjectPrototypeMembers: set<string> := {
    "constructor", "hasOwnProperty", "isPrototypeOf", "propertyIsEnumerable",
    "toLocaleString", "toString", "valueOf", "__proto__",
    "__defineGetter__", "__defineSetter__", "__lookupGetter__", "__lookupSetter__"
  }

  /** `obj[key]` on an object literal: an own property first, then the prototype chain. */
  function PropertyRead(obj: map<string, Mdx>, key: string): (v: JsValue)
    ensures key in obj ==> v == Found(obj[key])
    ensures key !in obj ==> (v == Inherited(key) <==> key in ObjectPrototypeMembers)
    ensures key !in obj ==> (v == Undefined <==> key !in ObjectPrototypeMembers)
  {
    if key in obj then Found(obj[key])
    else if key in ObjectPrototypeMembers then Inherited(key)
    else Undefined
  }

  /** `getPost` as written, over any list of articles: a missing or empty slug gives `undefined`, anything else is read off the slug map. */
  function LookupAsWritten(articles: seq<Mdx>, slug: Option<string>): (v: JsValue)
    ensures slug.None? || slug == Some("") ==> v == Undefined
    ensures slug.Some? && slug.value != "" && slug.value in Slugs(articles) ==>
      v == Found(articles[LastIndexOfSlug(articles, slug.value)])
    ensures slug.Some? && slug.value != "" && slug.value !in Slugs(articles) ==>
      v == (if slug.value in ObjectPrototypeMembers then Inherited(slug.value) else Undefined)
  {
    SlugsHaveLastIndex(articles);
    if slug.None? || slug.value == "" then Undefined
    else PropertyRead(SlugMap(articles), slug.value)
  }

  /** `getPost` as intended: only the map's own keys are found. */
  function Lookup(articles: seq<Mdx>, slug: Option<string>): (r: Option<Mdx>)
    ensures slug.None? || slug == Some("") ==> r.None?
    ensures slug.Some? && slug.value != "" ==> (r.Some? <==> slug.value in Slugs(articles))
    ensures r.Some? ==> r.value in articles && Slug(r.value) == slug.value
    ensures r.Some? ==> r.value == articles[LastIndexOfSlug(articles, slug.value)]
  {
    if slug.None? || slug.value == "" then None
    else
      SlugsHaveLastIndex(articles);
      var m := SlugMap(articles);
      if slug.value in m then Some(m[slug.value]) else None
  }

  /** Where the written lookup and the intended one agree, and where they part. */
  lemma LookupAsWrittenDiffers(articles: seq<Mdx>, slug: Option<string>)
    ensures Lookup(articles, slug).Some? ==> LookupAsWritten(articles, slug) == Found(Lookup(articles, slug).value)
    ensures slug.Some? && slug.value !in ObjectPrototypeMembers && Lookup(articles, slug).None? ==>
      LookupAsWritten(articles, slug) == Undefined
    ensures slug.Some? && slug.value in ObjectPrototypeMembers && slug.value !in Slugs(articles) ==>
      LookupAsWritten(articles, slug) == Inherited(slug.value) && Lookup(articles, slug) == None
  {
  }

  /** `getPost` as written: a slug that names an inherited property yields that property. */
  function GetPostAsWritten(load: ArticleModule -> Mdx, slug: Option<string>): (v: JsValue)
    ensures slug.None? || slug == Some("") ==> v == Undefined
    ensures slug.Some? && slug.value != "" && slug.value in Slugs(GetArticles(load)) ==> v == Found(GetPost(load, slug).value)
    ensures slug.Some? && slug.value in ObjectPrototypeMembers && slug.value !in Slugs(GetArticles(load)) ==>
      v == Inherited(slug.value)
    ensures (slug.Some? && slug.value != "" && slug.value !in Slugs(GetArticles(load)) &&
             slug.value !in ObjectPrototypeMembers) ==> v == Undefined
  {
    LookupAsWrittenDiffers(GetArticles(load), slug);
    LookupAsWritten(GetArticles(load), slug)
  }

  /**
   * A slug such as "constructor" that no article owns should give `undefined`; the written
   * `getPost` hands back `Object.prototype.constructor` instead.
   */
  lemma InheritedSlugFound(load: ArticleModule -> Mdx)
    requires forall i :: 0 <= i < 6 ==> Slug(load(ArticleOrder[i])) != "constructor"
    ensures GetPostAsWritten(load, Some("constructor")) == Inherited("constructor")
    ensures GetPost(load, Some("constructor")) == None
  {
    var articles := GetArticles(load);
    assert "constructor" !in Slugs(articles) by {
      forall mod | mod in articles ensures Slug(mod) != "constructor" {
        var i :| 0 <= i < |articles| && articles[i] == mod;
      }
    }
    LookupAsWrittenDiffers(articles, Some("constructor"));
  }

  /**
   * `getPost`, with the inherited-property reads excluded: `undefined` for a missing or
   * empty slug and for one no article has; otherwise the last article listed with that slug.
   */
  function GetPost(load: ArticleModule -> Mdx, slug: Option<string>): (r: Option<Mdx>)
    ensures slug.None? || slug == Some("") ==> r.None?
    ensures slug.Some? && slug.value != "" ==> (r.Some? <==> slug.value in Slugs(GetArticles(load)))
    ensures r.Some? ==> r.value in GetArticles(load) && r.value.attributes.meta.slug == slug.value
    ensures r.Some? ==> r.value == GetArticles(load)[LastIndexOfSlug(GetArticles(load), slug.value)]
  {
    Lookup(GetArticles(load), slug)
  }
}
