/** The public blog listing: the client-side search and category filter over the
    fetched posts, the dictionary fallback, and the bilingual text fallback of a card. */
module Blogs {
  import opened Wrappers
  import opened Seqs
  import opened Text

  /** A row of the `blogs` table as the listing reads it; a column may be null. */
  datatype Blog = Blog(
    id: int,
    title: Option<string>,
    title_en: Option<string>,
    description: Option<string>,
    description_en: Option<string>,
    category: Option<string>)

  /** The two category labels that mean "no category filter". */
  predicate IsAllCategory(category: string) {
    category == "All" || category == "الكل"
  }

  /** `title?.toLowerCase().includes(query.toLowerCase())`: false for a null title. */
  predicate TitleMatches(title: Option<string>, query: string) {
    title.Some? && Includes(Lower(title.value), Lower(query))
  }

  /** The search predicate: the Arabic or the English title contains the query. */
  predicate MatchesQuery(blog: Blog, query: string) {
    TitleMatches(blog.title, query) || TitleMatches(blog.title_en, query)
  }

  /** The category predicate: `blog.category === activeCategory`. */
  predicate InCategory(blog: Blog, category: string) {
    blog.category == Some(category)
  }

  /** The two filters a post must pass to be listed. An empty query is falsy, so it
      switches the search off; "All"/"الكل" switch the category filter off. */
  predicate Selected(blog: Blog, query: string, category: string) {
    (query == "" || MatchesQuery(blog, query)) && (IsAllCategory(category) || InCategory(blog, category))
  }

  /** The effect on `[searchQuery, activeCategory, blogs]`: the search filter, then the
      category filter, each applied only when active. */
  function FilterBlogs(blogs: seq<Blog>, query: string, category: string): (r: seq<Blog>)
    ensures |r| <= |blogs|
    ensures forall b :: b in r ==> b in blogs && Selected(b, query, category)
  {
    var afterSearch := if query != "" then Keep(blogs, b => MatchesQuery(b, query)) else blogs;
    if !IsAllCategory(category) then Keep(afterSearch, b => InCategory(b, category)) else afterSearch
  }

  /** The filtered list is an order-preserving subsequence of the fetched list. */
  lemma FilterIsSubsequence(blogs: seq<Blog>, query: string, category: string)
    ensures IsSubsequence(FilterBlogs(blogs, query, category), blogs)
  {
    var afterSearch := if query != "" then Keep(blogs, b => MatchesQuery(b, query)) else blogs;
    if query != "" {
      KeepIsSubsequence(blogs, b => MatchesQuery(b, query));
    } else {
      SubsequenceReflexive(blogs);
    }
    if !IsAllCategory(category) {
      KeepIsSubsequence(afterSearch, b => InCategory(b, category));
      SubsequenceTransitive(FilterBlogs(blogs, query, category), afterSearch, blogs);
    }
  }

  /** Exactly the selected posts are listed, each as many times as it was fetched. */
  lemma FilterCount(blogs: seq<Blog>, query: string, category: string, b: Blog)
    ensures multiset(FilterBlogs(blogs, query, category))[b]
         == if Selected(b, query, category) then multiset(blogs)[b] else 0
  {
    var afterSearch := if query != "" then Keep(blogs, b => MatchesQuery(b, query)) else blogs;
    if query != "" {
      KeepCount(blogs, b => MatchesQuery(b, query), b);
    }
    if !IsAllCategory(category) {
      KeepCount(afterSearch, b => InCategory(b, category), b);
    }
  }

  /** Soundness and completeness: a post is listed iff it was fetched and passes both
      active filters. */
  lemma FilterMembership(blogs: seq<Blog>, query: string, category: string, b: Blog)
    ensures b in FilterBlogs(blogs, query, category) <==> b in blogs && Selected(b, query, category)
  {
    FilterCount(blogs, query, category, b);
  }

  /** With a non-empty query, every listed post has a title containing it,
      compared after lower-casing both. */
  lemma FilterSearchSound(blogs: seq<Blog>, query: string, category: string, b: Blog)
    requires query != "" && b in FilterBlogs(blogs, query, category)
    ensures (b.title.Some? && Includes(Lower(b.title.value), Lower(query)))
         || (b.title_en.Some? && Includes(Lower(b.title_en.value), Lower(query)))
  {
  }

  /** With an active category, every listed post carries exactly that category. */
  lemma FilterCategorySound(blogs: seq<Blog>, query: string, category: string, b: Blog)
    requires !IsAllCategory(category) && b in FilterBlogs(blogs, query, category)
    ensures b.category == Some(category)
  {
  }

  /** A post with neither title is never listed while a query is typed. */
  lemma UntitledExcluded(blogs: seq<Blog>, query: string, category: string, b: Blog)
    requires query != "" && b.title.None? && b.title_en.None?
    ensures b !in FilterBlogs(blogs, query, category)
  {
  }

  /** The search ignores the query's case: lower-casing the query first selects the
      same posts. */
  lemma SearchIgnoresQueryCase(b: Blog, query: string, category: string)
    ensures Selected(b, Lower(query), category) <==> Selected(b, query, category)
  {
    LowerIdempotent(query);
  }

  /** With no query and the "All" category, the listing is the fetched list. */
  lemma FilterIdentity(blogs: seq<Blog>, category: string)
    requires IsAllCategory(category)
    ensures FilterBlogs(blogs, "", category) == blogs
  {
  }

  /** The category filter alone keeps the list whole when every post is in it. */
  lemma FilterKeepsUniformCategory(blogs: seq<Blog>, category: string)
    requires forall b :: b in blogs ==> b.category == Some(category)
    ensures FilterBlogs(blogs, "", category) == blogs
  {
    if !IsAllCategory(category) {
      KeepAll(blogs, b => InCategory(b, category));
    }
  }

  /** The page's strings in one language. */
  datatype Dictionary = Dictionary(
    title: string,
    subtitle: string,
    searchPlaceholder: string,
    categories: seq<string>,
    readMore: string,
    noResults: string,
    all: string)

  const Arabic := Dictionary(
    "المدونة",
    "استكشف أحدث المقالات، النصائح، والتحديثات من فريق عملنا.",
    "ابحث عن مقال...",
    ["الكل", "تقنية", "تصميم", "أخبار"],
    "اقرأ المزيد",
    "لم يتم العثور على مقالات تطابق بحثك.",
    "الكل")

  const English := Dictionary(
    "Our Blog",
    "Explore the latest articles, tips, and updates from our team.",
    "Search for an article...",
    ["All", "Tech", "Design", "News"],
    "Read More",
    "No articles found matching your search.",
    "All")

  /** `dict[lang] || dict["ar"]`: the dictionary of a known code, Arabic otherwise. */
  function Translations(lang: string): (t: Dictionary)
    ensures lang == "en" ==> t == English
    ensures lang != "en" ==> t == Arabic
  {
    var dict := map["ar" := Arabic, "en" := English];
    if lang in dict then dict[lang] else dict["ar"]
  }

  /** In either language the first category button and `all` are the "no filter"
      label, and no other button is. */
  lemma FirstCategoryIsAll(lang: string)
    ensures |Translations(lang).categories| == 4
    ensures IsAllCategory(Translations(lang).categories[0])
    ensures IsAllCategory(Translations(lang).all)
    ensures forall k :: 1 <= k < 4 ==> !IsAllCategory(Translations(lang).categories[k])
  {
  }

  /** A string is truthy in JavaScript when present and non-empty. */
  predicate Truthy(s: Option<string>) {
    s.Some? && s.value != ""
  }

  /** `lang === "ar" ? ar : en || ar`: a card's title or description. */
  function Localized(lang: string, ar: Option<string>, en: Option<string>): (r: Option<string>)
    ensures r == ar || r == en
    ensures lang == "ar" ==> r == ar
    ensures lang != "ar" && Truthy(en) ==> r == en
    ensures lang != "ar" && !Truthy(en) ==> r == ar
  {
    if lang == "ar" then ar else if Truthy(en) then en else ar
  }

  /** The title shown on a card. */
  function DisplayTitle(blog: Blog, lang: string): (r: Option<string>)
    ensures lang != "ar" && Truthy(blog.title_en) ==> r == blog.title_en
    ensures (lang == "ar" || !Truthy(blog.title_en)) ==> r == blog.title
  {
    Localized(lang, blog.title, blog.title_en)
  }

  /** The description shown on a card. */
  function DisplayDescription(blog: Blog, lang: string): (r: Option<string>)
    ensures lang != "ar" && Truthy(blog.description_en) ==> r == blog.description_en
    ensures (lang == "ar" || !Truthy(blog.description_en)) ==> r == blog.description
  {
    Localized(lang, blog.description, blog.description_en)
  }

  /** In English mode a card shows text whenever either language has some; in
      Arabic mode it shows text exactly when the Arabic field has some. */
  lemma LocalizedNeverBlankWhenAvailable(lang: string, ar: Option<string>, en: Option<string>)
    ensures lang != "ar" ==> (Truthy(Localized(lang, ar, en)) <==> Truthy(ar) || Truthy(en))
    ensures lang == "ar" ==> (Truthy(Localized(lang, ar, en)) <==> Truthy(ar))
  {
  }
}
