/**
 * The article registry of `app/post.ts`: module-level constants computed once (the article list,
 * its metadata, the slug map) and two lookups over them.  It lists five of the six
 * article modules; the article on logging is not among them.
 */
module PostIndex {

  import opened Wrappers
  import Articles

  /** The listing order of `mdxArticles`. */
  const MdxOrder: seq<Articles.ArticleModule> := [
    Articles.DebugDrivenDevelopment,
    Articles.ThePartyMathTrick,
    Articles.BuildingAMonad,
    Articles.MonadsAreMonoidsInTheCategoryOfEndofunctors,
    Articles.EngineersSchrodingersCat
  ]

  /** `mdxArticles`: five imported modules, once each, in listing order. */
  function MdxArticles(load: Articles.ArticleModule -> Articles.Mdx): (articles: seq<Articles.Mdx>)
    ensures |articles| == 5
    ensures forall i :: 0 <= i < 5 ==> articles[i] == load(MdxOrder[i])
  {
    seq(|MdxOrder|, i requires 0 <= i < |MdxOrder| => load(MdxOrder[i]))
  }

  /** `articleData`: the metadata of the five articles, in list order. */
  function ArticleData(load: Articles.ArticleModule -> Articles.Mdx): (posts: seq<Articles.Post>)
    ensures |posts| == 5
    ensures forall i :: 0 <= i < 5 ==> posts[i] == load(MdxOrder[i]).attributes.meta
  {
    Articles.MetadataList(MdxArticles(load))
  }

  /** `getPosts`: hands out `articleData` as computed at load time. */
  function GetPosts(load: Articles.ArticleModule -> Articles.Mdx): (posts: seq<Articles.Post>)
    ensures posts == ArticleData(load)
  {
    ArticleData(load)
  }

  /** `articleMap`: every slug of the five articles is a key, holding the last article listed with it. */
  function ArticleMap(load: Articles.ArticleModule -> Articles.Mdx): (m: map<string, Articles.Mdx>)
    ensures m.Keys == Articles.Slugs(MdxArticles(load))
    ensures forall s :: s in m ==>
      var i := Articles.LastIndexOfSlug(MdxArticles(load), s);
      0 <= i < 5 && m[s] == load(MdxOrder[i]) &&
      forall j :: i < j < 5 ==> Articles.Slug(load(MdxOrder[j])) != s
  {
    Articles.SlugsHaveLastIndex(MdxArticles(load));
    Articles.SlugMap(MdxArticles(load))
  }

  /** `getPost` as written: a slug that names an inherited property yields that property. */
  function GetPostAsWritten(load: Articles.ArticleModule -> Articles.Mdx, slug: Option<string>): (v: Articles.JsValue)
    ensures slug.None? || slug == Some("") ==> v == Articles.Undefined
    ensures slug.Some? && slug.value != "" && slug.value in ArticleMap(load) ==> v == Articles.Found(ArticleMap(load)[slug.value])
    ensures slug.Some? && slug.value in Articles.ObjectPrototypeMembers && slug.value !in ArticleMap(load) ==>
      v == Articles.Inherited(slug.value)
    ensures (slug.Some? && slug.value != "" && slug.value !in ArticleMap(load) &&
             slug.value !in Articles.ObjectPrototypeMembers) ==> v == Articles.Undefined
  {
    Articles.LookupAsWrittenDiffers(MdxArticles(load), slug);
    Articles.LookupAsWritten(MdxArticles(load), slug)
  }

  /** With no article slugged "toString", the written `getPost("toString")` is `Object.prototype.toString`, not `undefined`. */
  lemma InheritedSlugFound(load: Articles.ArticleModule -> Articles.Mdx)
    requires forall i :: 0 <= i < 5 ==> Articles.Slug(load(MdxOrder[i])) != "toString"
    ensures GetPostAsWritten(load, Some("toString")) == Articles.Inherited("toString")
    ensures GetPost(load, Some("toString")) == None
  {
    var articles := MdxArticles(load);
    assert "toString" !in Articles.Slugs(articles) by {
      forall mod | mod in articles ensures Articles.Slug(mod) != "toString" {
        var i :| 0 <= i < |articles| && articles[i] == mod;
      }
    }
    Articles.LookupAsWrittenDiffers(articles, Some("toString"));
  }

  /**
   * `getPost`, with the inherited-property reads excluded: `undefined` for a missing or
   * empty slug and for one no article has; otherwise the entry of `articleMap`.
   */
  function GetPost(load: Articles.ArticleModule -> Articles.Mdx, slug: Option<string>): (r: Option<Articles.Mdx>)
    ensures slug.None? || slug == Some("") ==> r.None?
    ensures slug.Some? && slug.value != "" ==> (r.Some? <==> slug.value in ArticleMap(load))
    ensures r.Some? ==> r.value == ArticleMap(load)[slug.value] && r.value.attributes.meta.slug == slug.value
  {
    Articles.Lookup(MdxArticles(load), slug)
  }
}
