/** The blog index, `src/pages/blog/BlogPage.tsx`: the defaults filled into
    each fetched post, the placeholder posts shown when nothing was fetched,
    the slugs of the placeholder category badges, and the page's own variant
    of choosing a post's image, which falls back on the post's category. */
module BlogPage {
  import opened Optional
  import opened Strings
  import opened BlogUtils

  /** A row of the posts query; the joined profile and category may be
      missing, and so may any of their columns. */
  datatype Profile = Profile(username: Option<string>, avatarUrl: Option<string>)
  datatype Category = Category(name: Option<string>, slug: Option<string>)
  datatype Row = Row(
    id: string,
    title: string,
    slug: string,
    excerpt: Option<string>,
    featuredImage: Option<string>,
    status: string,
    profile: Option<Profile>,
    category: Option<Category>)

  /** A post as the page renders it. */
  datatype Post = Post(
    id: string,
    title: string,
    slug: string,
    excerpt: string,
    featuredImage: string,
    status: string,
    username: string,
    avatarUrl: Option<string>,
    categoryName: string,
    categorySlug: string)

  /** `value || fallback` on a column that may be null: null and the empty
      string both give the fallback. */
  function Or(value: Option<string>, fallback: string): (r: string)
    ensures value.Some? && value.value != "" ==> r == value.value
    ensures value.None? || value.value == "" ==> r == fallback
  {
    if value.Some? && value.value != "" then value.value else fallback
  }

  /** `avatar_url || null`: null and the empty string both give null. */
  function OrNull(value: Option<string>): (r: Option<string>)
    ensures value.Some? && value.value != "" ==> r == value
    ensures value.None? || value.value == "" ==> r == None
  {
    if value.Some? && value.value != "" then value else None
  }

  /** The formatting of one fetched row. */
  function Format(row: Row): (p: Post)
    ensures p.id == row.id && p.title == row.title && p.slug == row.slug && p.status == row.status
    ensures p.excerpt != "" && p.featuredImage != "" && p.username != ""
    ensures p.categoryName != "" && p.categorySlug != ""
    ensures p.avatarUrl.Some? ==> p.avatarUrl.value != ""
  {
    var profile := row.profile.GetOr(Profile(None, None));
    var category := row.category.GetOr(Category(None, None));
    Post(row.id, row.title, row.slug,
         Or(row.excerpt, "No excerpt available"),
         Or(row.featuredImage, "/placeholder.svg"),
         row.status,
         Or(profile.username, "Unknown Author"),
         OrNull(profile.avatarUrl),
         Or(category.name, "Uncategorized"),
         Or(category.slug, "uncategorized"))
  }

  /** A column that is filled is kept; a missing or empty one gets its
      default. */
  lemma FormatDefaults(row: Row)
    ensures var p := Format(row);
      && p.excerpt == Or(row.excerpt, "No excerpt available")
      && p.featuredImage == Or(row.featuredImage, "/placeholder.svg")
      && p.username == Or(row.profile.GetOr(Profile(None, None)).username, "Unknown Author")
      && p.avatarUrl == OrNull(row.profile.GetOr(Profile(None, None)).avatarUrl)
      && (row.profile.None? ==> p.username == "Unknown Author" && p.avatarUrl == None)
      && (row.category.None? ==> p.categoryName == "Uncategorized" && p.categorySlug == "uncategorized")
      && (row.category.Some? ==> p.categoryName == Or(row.category.value.name, "Uncategorized")
                                 && p.categorySlug == Or(row.category.value.slug, "uncategorized"))
  {
  }

  /** `data.map(...)`. */
  function FormatAll(rows: seq<Row>): (r: seq<Post>)
    ensures |r| == |rows| && forall i :: 0 <= i < |rows| ==> r[i] == Format(rows[i])
  {
    seq(|rows|, i requires 0 <= i < |rows| => Format(rows[i]))
  }

  /** The public path of each bundled image, as it is imported. */
  function AssetPath(a: Asset): string {
    match a
    case TechImage => "/images/blog/blog-tech.jpg"
    case DesignImage => "/images/blog/blog-design.jpg"
    case ProgrammingImage => "/images/blog/blog-programming.jpg"
  }

  /** The posts shown while the database has none. */
  const Placeholders: seq<Post> := [
    Post("1", "Cara Membuat Website Modern dengan React dan Tailwind CSS", "cara-membuat-website-modern",
         "Pelajari langkah-langkah untuk membuat website modern yang responsif menggunakan React dan Tailwind CSS",
         AssetPath(TechImage), "published", "admin", Some(""), "Web Development", "web-development"),
    Post("2", "Mengenal Dasar-dasar TypeScript untuk Pengembang JavaScript", "dasar-typescript",
         "Panduan lengkap untuk memulai dengan TypeScript bagi pengembang yang sudah familiar dengan JavaScript",
         AssetPath(ProgrammingImage), "published", "admin", Some(""), "JavaScript", "javascript"),
    Post("3", "Mengoptimalkan Performa Aplikasi React dengan Hooks", "optimasi-react-hooks",
         "Tips dan trik untuk meningkatkan performa aplikasi React dengan penggunaan Hooks yang efisien",
         AssetPath(DesignImage), "published", "admin", Some(""), "React", "react")
  ]

  /** `posts.length > 0 ? posts : placeholderPosts`. */
  function Displayed(posts: seq<Post>): (r: seq<Post>)
    ensures posts == [] ==> r == Placeholders
    ensures posts != [] ==> r == posts
    ensures |r| > 0
  {
    if |posts| > 0 then posts else Placeholders
  }

  /** The default image for a post of the given category: the first of
      "design", "tech", "program" or "develop" found in the lowercased
      name decides, and the tech image is the last resort. */
  function CategoryImage(name: string): (a: Asset)
    ensures Contains(Lower(name), "design") ==> a == DesignImage
    ensures !Contains(Lower(name), "design") && Contains(Lower(name), "tech") ==> a == TechImage
    ensures (!Contains(Lower(name), "design") && !Contains(Lower(name), "tech")
             && (Contains(Lower(name), "program") || Contains(Lower(name), "develop"))) ==> a == ProgrammingImage
    ensures a == DesignImage <==> Contains(Lower(name), "design")
    ensures a == ProgrammingImage <==>
      !Contains(Lower(name), "design") && !Contains(Lower(name), "tech")
      && (Contains(Lower(name), "program") || Contains(Lower(name), "develop"))
  {
    var c := Lower(name);
    if Contains(c, "design") then DesignImage
    else if Contains(c, "tech") then TechImage
    else if Contains(c, "program") || Contains(c, "develop") then ProgrammingImage
    else TechImage
  }

  /** `getPostImage(post)` of the blog index. */
  function PostImageOf(post: Post): (r: PostImage)
    // a reference whose stem is a key gives that bundled image
    ensures var url := post.featuredImage;
      url != "" && !StartsWith(url, "http") && LocalImage(ImageStem(url)).Some? ==>
        r == Bundled(LocalImage(ImageStem(url)).value)
    // a URL starting with "http" is used as it is
    ensures post.featuredImage != "" && StartsWith(post.featuredImage, "http") ==> r == Path(post.featuredImage)
    // anything else, public-folder paths included, takes the category's image
    ensures var url := post.featuredImage;
      (url == "" || (!StartsWith(url, "http") && LocalImage(ImageStem(url)).None?)) ==>
        r == Bundled(CategoryImage(post.categoryName))
    ensures r.Path? ==> r.url == post.featuredImage && StartsWith(r.url, "http")
  {
    var url := post.featuredImage;
    if url != "" && !StartsWith(url, "http") && ImageStem(url) != "" && LocalImage(ImageStem(url)).Some? then
      Bundled(LocalImage(ImageStem(url)).value)
    else if url != "" && StartsWith(url, "http") then
      Path(url)
    else
      Bundled(CategoryImage(post.categoryName))
  }

  /** Where the two variants part: a public-folder path that is not a
      known image is used as it is by the blog helpers but replaced by the
      category's image on the blog index. */
  lemma ImagesPathDiffers(post: Post)
    requires StartsWith(post.featuredImage, "/images/") && LocalImage(ImageStem(post.featuredImage)).None?
    ensures GetPostImage(Some(post.featuredImage)) == Path(post.featuredImage)
    ensures PostImageOf(post) == Bundled(CategoryImage(post.categoryName))
  {
    assert post.featuredImage[0] == '/';
  }

  /** A post fetched without an image gets its category's image. */
  lemma NoImageTakesCategory(row: Row)
    requires row.featuredImage.None? || row.featuredImage == Some("")
    ensures PostImageOf(Format(row)) == Bundled(CategoryImage(Format(row).categoryName))
  {
    var url := Format(row).featuredImage;
    assert url == "/placeholder.svg";
    assert !StartsWith(url, "http") by { assert url[0] == '/'; }
    PlaceholderStem();
  }

  /** The stem of the default image is no key. */
  lemma PlaceholderStem()
    ensures LocalImage(ImageStem("/placeholder.svg")).None?
  {
    var url := "/placeholder.svg";
    var name := "placeholder.svg";
    assert url == "" + ['/'] + name;
    assert '/' !in name;
    SplitAtSeparator("", name, '/');
    ImageStemIsFileNamePrefix(url);
    StemNotKey(name, ImageStem(url));
  }

  lemma StemNotKey(name: string, stem: string)
    requires name != [] && name[0] == 'p' && StartsWith(name, stem)
    ensures LocalImage(stem).None?
  {
  }

  /** `Split` at the first separator. */
  lemma SplitAtSeparator(a: string, b: string, sep: char)
    requires sep !in a && sep !in b
    ensures Split(a + [sep] + b, sep) == [a, b]
  {
    SplitJoin([a, b], sep);
    assert Join([a, b], sep) == a + [sep] + b;
  }

  /** `cat.toLowerCase().replace(' ', '-')`: the badge slug of a placeholder
      category. */
  function BadgeSlug(cat: string): (r: string)
    ensures |r| == |cat|
  {
    var c := Lower(cat);
    var i := IndexOf(c, " ");
    if i >= 0 then
      SubstituteLiteral("-", " ", c[..i], c[i + 1..]);
      ReplaceFirst(c, " ", "-")
    else ReplaceFirst(c, " ", "-")
  }

  /** Only the first space becomes a dash; without a space the slug is the
      lowercased name. */
  lemma BadgeSlugFirstSpace(cat: string, a: string, c: string)
    ensures ' ' !in Lower(cat) ==> BadgeSlug(cat) == Lower(cat)
    ensures Lower(cat) == a + " " + c && ' ' !in a ==> BadgeSlug(cat) == a + "-" + c
  {
    if ' ' !in Lower(cat) {
      ContainsIff(Lower(cat), " ");
    }
    if Lower(cat) == a + " " + c && ' ' !in a {
      ReplaceFirstAt(a, " ", c, "-");
    }
  }

  /** The placeholder categories, as the badges list them. */
  const PlaceholderCategories: seq<string> := ["Web Development", "JavaScript", "React", "UI/UX Design"]
}
