/**
  `generate_site`: create the output directory, load the templates, parse
  every markdown file the walk finds (stopping at the first error), sort
  the posts newest first, then write one page per post, `index.html` and
  `feed.xml`.

  A run is specified by its plan: the outcome and the ordered list of
  files it writes. The output directory afterwards is the old one with
  those writes applied in order; a run that fails part-way keeps the
  writes made before the failure.
*/
module Site {
  import opened Results
  import opened Dates
  import opened Paths
  import opened Document
  import opened Collection
  import opened Feed

  const PostTemplate: string := "post.html"
  const IndexTemplate: string := "index.html"
  const IndexName: string := "index.html"
  const FeedName: string := "feed.xml"

  /** One item of the directory walk: an entry, or the error `WalkDir` yields in its place. */
  datatype WalkEntry = Entry(path: Path) | WalkFailure

  /** The variables bound for a template: a post page, or the index with all posts. */
  datatype PageContext =
    | PostPage(title: string, content: string, date: string)
    | IndexPage(posts: seq<Post>)

  /** The template engine loaded from the template directory: rendering a named template may fail. */
  datatype Engine = Engine(render: (string, PageContext) -> Option<string>)

  /**
    What one run reads: the entries of the content walk in walk order, the
    text of each readable file, and the template engine, absent when
    loading the templates failed.
  */
  datatype Sources = Sources(walk: seq<WalkEntry>, files: map<Path, string>, engine: Option<Engine>)

  /** The library calls a run makes besides parsing: RFC 2822 dates and RSS serialisation. */
  datatype Libraries = Libraries(conv: Converters, rfc2822: Timestamp -> string, feedXml: Channel -> string)

  datatype SiteError =
    | TemplateInitFailed
    | WalkFailed
    | ParseFailed(error: ParseError)
    | RenderFailed(template: string)

  datatype Outcome = Done | Failed(error: SiteError)

  /** What a run does: its outcome and the files it writes, in order, as (name, content). */
  datatype Plan = Plan(outcome: Outcome, writes: seq<(string, string)>)

  // ---------------------------------------------------------------------
  // The output directory

  /** The output directory: whether it exists, and the content of each file in it by name. */
  class OutputDir {
    var created: bool
    var files: map<string, string>

    constructor (created: bool, files: map<string, string>)
      ensures this.created == created && this.files == files
    {
      this.created := created;
      this.files := files;
    }

    /** `fs::create_dir_all`: succeeds whether or not the directory exists already. */
    method CreateAll()
      modifies this
      ensures created && files == old(files)
    {
      created := true;
    }

    /** `fs::write`: creates or overwrites one file. */
    method Write(name: string, content: string)
      requires created
      modifies this
      ensures created && files == old(files)[name := content]
    {
      files := files[name := content];
    }
  }

  /** The directory after the writes, in order: a later write to a name wins. */
  function Apply(files: map<string, string>, writes: seq<(string, string)>): map<string, string>
    decreases |writes|
  {
    if writes == [] then files else Apply(files[writes[0].0 := writes[0].1], writes[1..])
  }

  /** The names the writes touch. */
  function Names(writes: seq<(string, string)>): seq<string> {
    seq(|writes|, i requires 0 <= i < |writes| => writes[i].0)
  }

  // ---------------------------------------------------------------------
  // Collecting the posts

  /** The error a walk entry stops the collection with, if any. */
  function EntryError(entry: WalkEntry, files: map<Path, string>, conv: Converters): Option<SiteError> {
    match entry
    case WalkFailure => Some(WalkFailed)
    case Entry(p) =>
      if !IsMarkdown(p) then None
      else match ParseMarkdownFile(p, files, conv)
        case Err(e) => Some(ParseFailed(e))
        case Ok(_) => None
  }

  /** The markdown paths of the walk, in walk order. */
  function MarkdownPaths(walk: seq<WalkEntry>): seq<Path>
    decreases |walk|
  {
    if walk == [] then []
    else (if walk[0].Entry? && IsMarkdown(walk[0].path) then [walk[0].path] else [])
         + MarkdownPaths(walk[1..])
  }

  /** The collection loop: each markdown entry parsed in walk order, the first error ends it. */
  function Collect(walk: seq<WalkEntry>, files: map<Path, string>, conv: Converters): Result<seq<Post>, SiteError>
    decreases |walk|
  {
    if walk == [] then Ok([])
    else match walk[0]
      case WalkFailure => Err(WalkFailed)
      case Entry(p) =>
        if !IsMarkdown(p) then Collect(walk[1..], files, conv)
        else match ParseMarkdownFile(p, files, conv)
          case Err(e) => Err(ParseFailed(e))
          case Ok(post) =>
            match Collect(walk[1..], files, conv)
            case Err(e) => Err(e)
            case Ok(rest) => Ok([post] + rest)
  }

  /** `posts` followed by whatever `r` collects; an error stays an error. */
  function Prefixed(posts: seq<Post>, r: Result<seq<Post>, SiteError>): Result<seq<Post>, SiteError> {
    match r
    case Err(e) => Err(e)
    case Ok(rest) => Ok(posts + rest)
  }

  /**
    The collection fails exactly when some entry fails, and then with the
    error of the first failing entry, in walk order.
  */
  lemma {:induction false} CollectStopsAtFirstError(walk: seq<WalkEntry>, files: map<Path, string>, conv: Converters)
    ensures Collect(walk, files, conv).Err? <==> exists k :: 0 <= k < |walk| && EntryError(walk[k], files, conv).Some?
    ensures Collect(walk, files, conv).Err? ==>
      exists k :: 0 <= k < |walk| && EntryError(walk[k], files, conv) == Some(Collect(walk, files, conv).error)
        && forall j :: 0 <= j < k ==> EntryError(walk[j], files, conv).None?
    decreases |walk|
  {
    if walk != [] {
      CollectStopsAtFirstError(walk[1..], files, conv);
      if EntryError(walk[0], files, conv).None? {
        forall k | 0 <= k < |walk| && EntryError(walk[k], files, conv).Some?
          ensures k >= 1 && EntryError(walk[1..][k - 1], files, conv).Some?
        {
        }
        if Collect(walk, files, conv).Err? {
          var k :| 0 <= k < |walk[1..]| && EntryError(walk[1..][k], files, conv) == Some(Collect(walk, files, conv).error)
            && forall j :: 0 <= j < k ==> EntryError(walk[1..][j], files, conv).None?;
          assert EntryError(walk[k + 1], files, conv) == Some(Collect(walk, files, conv).error);
          assert forall j :: 0 <= j < k + 1 ==> EntryError(walk[j], files, conv).None? by {
            forall j | 0 <= j < k + 1
              ensures EntryError(walk[j], files, conv).None?
            {
              if j > 0 {
                assert walk[j] == walk[1..][j - 1];
              }
            }
          }
        }
      } else {
        assert EntryError(walk[0], files, conv) == Some(Collect(walk, files, conv).error);
      }
    }
  }

  /**
    When the collection succeeds it holds one post per markdown file of the
    walk, in walk order, each the parse of that file; other entries are not
    read.
  */
  lemma {:induction false} CollectParsesMarkdownOnly(walk: seq<WalkEntry>, files: map<Path, string>, conv: Converters)
    requires Collect(walk, files, conv).Ok?
    ensures var posts := Collect(walk, files, conv).value;
      && |posts| == |MarkdownPaths(walk)|
      && forall k :: 0 <= k < |posts| ==> ParseMarkdownFile(MarkdownPaths(walk)[k], files, conv) == Ok(posts[k])
    decreases |walk|
  {
    if walk != [] {
      var tail := walk[1..];
      CollectParsesMarkdownOnly(tail, files, conv);
      CollectHead(walk, files, conv);
      var posts := Collect(walk, files, conv).value;
      var rest := Collect(tail, files, conv).value;
      var paths := MarkdownPaths(tail);
      if IsMarkdown(walk[0].path) {
        assert MarkdownPaths(walk) == [walk[0].path] + paths;
        var parsesTo := (p: Path, post: Post) => ParseMarkdownFile(p, files, conv) == Ok(post);
        PairwiseCons(parsesTo, walk[0].path, paths, posts[0], rest);
      } else {
        assert MarkdownPaths(walk) == [] + paths;
        assert [] + paths == paths;
      }
    }
  }

  /** A relation holding pairwise along two sequences still holds with one more pair in front. */
  lemma PairwiseCons<A, B>(related: (A, B) -> bool, x: A, xs: seq<A>, y: B, ys: seq<B>)
    requires related(x, y) && |xs| == |ys|
    requires forall k :: 0 <= k < |xs| ==> related(xs[k], ys[k])
    ensures forall k :: 0 <= k < |xs| + 1 ==> related(([x] + xs)[k], ([y] + ys)[k])
  {
    forall k | 1 <= k < |xs| + 1
      ensures related(([x] + xs)[k], ([y] + ys)[k])
    {
      assert ([x] + xs)[k] == xs[k - 1];
      assert ([y] + ys)[k] == ys[k - 1];
    }
  }

  /** The first entry of a successful collection: a skipped entry, or a parsed markdown file heading the posts. */
  lemma CollectHead(walk: seq<WalkEntry>, files: map<Path, string>, conv: Converters)
    requires walk != [] && Collect(walk, files, conv).Ok?
    ensures walk[0].Entry? && Collect(walk[1..], files, conv).Ok?
    ensures !IsMarkdown(walk[0].path) ==> Collect(walk, files, conv) == Collect(walk[1..], files, conv)
    ensures IsMarkdown(walk[0].path) ==>
      && ParseMarkdownFile(walk[0].path, files, conv).Ok?
      && Collect(walk, files, conv).value
         == [ParseMarkdownFile(walk[0].path, files, conv).value] + Collect(walk[1..], files, conv).value
  {
  }

  /** How one entry moves the collection on: it fails, is skipped, or adds its post. */
  lemma CollectStep(walk: seq<WalkEntry>, i: nat, files: map<Path, string>, conv: Converters, posts: seq<Post>)
    requires i < |walk|
    ensures EntryError(walk[i], files, conv).Some? ==>
      Collect(walk[i..], files, conv) == Err(EntryError(walk[i], files, conv).value)
    ensures walk[i].Entry? && !IsMarkdown(walk[i].path) ==>
      Collect(walk[i..], files, conv) == Collect(walk[i + 1..], files, conv)
    ensures walk[i].Entry? && IsMarkdown(walk[i].path) && ParseMarkdownFile(walk[i].path, files, conv).Ok? ==>
      Prefixed(posts, Collect(walk[i..], files, conv))
        == Prefixed(posts + [ParseMarkdownFile(walk[i].path, files, conv).value], Collect(walk[i + 1..], files, conv))
  {
    assert walk[i..][0] == walk[i];
    assert walk[i..][1..] == walk[i + 1..];
    if walk[i].Entry? && IsMarkdown(walk[i].path) && ParseMarkdownFile(walk[i].path, files, conv).Ok? {
      var post := ParseMarkdownFile(walk[i].path, files, conv).value;
      var rest := Collect(walk[i + 1..], files, conv);
      if rest.Ok? {
        assert posts + ([post] + rest.value) == (posts + [post]) + rest.value;
      }
    }
  }

  /** `generate_site`'s collection loop over the walk, pushing each parsed post. */
  method CollectPosts(walk: seq<WalkEntry>, files: map<Path, string>, conv: Converters)
    returns (r: Result<seq<Post>, SiteError>)
    ensures r == Collect(walk, files, conv)
  {
    var posts: seq<Post> := [];
    assert walk[0..] == walk;
    PrefixedEmpty(Collect(walk, files, conv));
    for i := 0 to |walk|
      invariant Collect(walk, files, conv) == Prefixed(posts, Collect(walk[i..], files, conv))
    {
      CollectStep(walk, i, files, conv, posts);
      if walk[i].WalkFailure? {
        return Err(WalkFailed);
      }
      var p := walk[i].path;
      if IsMarkdown(p) {
        var parsed := ParseMarkdownFile(p, files, conv);
        if parsed.Err? {
          return Err(ParseFailed(parsed.error));
        }
        posts := posts + [parsed.value];
      }
    }
    assert walk[|walk|..] == [];
    assert posts + [] == posts;
    return Ok(posts);
  }

  lemma PrefixedEmpty(r: Result<seq<Post>, SiteError>)
    ensures Prefixed([], r) == r
  {
    if r.Ok? {
      assert [] + r.value == r.value;
    }
  }

  // ---------------------------------------------------------------------
  // The plan of a run

  /** The variables of a post's page: its title, its HTML and its displayed date. */
  function PostContext(post: Post): PageContext {
    PostPage(post.frontMatter.title, post.content, post.formattedDate)
  }

  /** Rendering and writing the pages one post at a time; a render error stops it. */
  function PagesPlan(engine: Engine, posts: seq<Post>): Plan
    decreases |posts|
  {
    if posts == [] then Plan(Done, [])
    else match engine.render(PostTemplate, PostContext(posts[0]))
      case None => Plan(Failed(RenderFailed(PostTemplate)), [])
      case Some(html) =>
        var rest := PagesPlan(engine, posts[1..]);
        Plan(rest.outcome, [(PageName(posts[0].slug), html)] + rest.writes)
  }

  /** One run of `generate_site` on the given sources. */
  function SitePlan(src: Sources, libs: Libraries): Plan {
    match src.engine
    case None => Plan(Failed(TemplateInitFailed), [])
    case Some(engine) =>
      match Collect(src.walk, src.files, libs.conv)
      case Err(e) => Plan(Failed(e), [])
      case Ok(found) =>
        var posts := SortNewestFirst(found);
        var pages := PagesPlan(engine, posts);
        if pages.outcome.Failed? then pages
        else match engine.render(IndexTemplate, IndexPage(posts))
          case None => Plan(Failed(RenderFailed(IndexTemplate)), pages.writes)
          case Some(index) =>
            Plan(Done, pages.writes + [(IndexName, index), (FeedName, libs.feedXml(ChannelOf(posts, libs.rfc2822)))])
  }

  /** The pages plan from post `i` on: its page, then the plan from post `i + 1`, unless it fails to render. */
  lemma PagesPlanAt(engine: Engine, posts: seq<Post>, i: nat)
    requires i < |posts|
    ensures var page := engine.render(PostTemplate, PostContext(posts[i]));
      var rest := PagesPlan(engine, posts[i + 1..]);
      && (page.None? ==> PagesPlan(engine, posts[i..]) == Plan(Failed(RenderFailed(PostTemplate)), []))
      && (page.Some? ==>
            PagesPlan(engine, posts[i..]) == Plan(rest.outcome, [(PageName(posts[i].slug), page.value)] + rest.writes))
  {
    assert posts[i..][0] == posts[i];
    assert posts[i..][1..] == posts[i + 1..];
  }

  /** The page names of the posts, in the posts' order. */
  function PageNames(posts: seq<Post>): seq<string> {
    seq(|posts|, i requires 0 <= i < |posts| => PageName(posts[i].slug))
  }

  lemma {:induction false} PagesPlanDone(engine: Engine, posts: seq<Post>)
    requires PagesPlan(engine, posts).outcome == Done
    ensures Names(PagesPlan(engine, posts).writes) == PageNames(posts)
    decreases |posts|
  {
    if posts != [] {
      var r := PagesPlan(engine, posts[1..]).writes;
      PagesPlanDone(engine, posts[1..]);
      var w := PagesPlan(engine, posts).writes;
      assert |w| == |r| + 1;
      forall i | 0 <= i < |posts|
        ensures Names(w)[i] == PageNames(posts)[i]
      {
        if i > 0 {
          assert w[i] == r[i - 1];
          assert Names(r)[i - 1] == PageNames(posts[1..])[i - 1];
        }
      }
    }
  }

  /**
    A page that fails to render stops the run after the pages of the posts
    before it: those stay written, and nothing after it is.
  */
  lemma {:induction false} PagesPlanFailed(engine: Engine, posts: seq<Post>)
    requires PagesPlan(engine, posts).outcome.Failed?
    ensures var plan := PagesPlan(engine, posts);
      && plan.outcome == Failed(RenderFailed(PostTemplate))
      && |plan.writes| < |posts|
      && engine.render(PostTemplate, PostContext(posts[|plan.writes|])).None?
      && Names(plan.writes) == PageNames(posts[..|plan.writes|])
    decreases |posts|
  {
    var first := engine.render(PostTemplate, PostContext(posts[0]));
    if first.Some? {
      var tail := posts[1..];
      PagesPlanFailed(engine, tail);
      var r := PagesPlan(engine, tail).writes;
      var w := PagesPlan(engine, posts).writes;
      var k := |r|;
      assert |w| == k + 1;
      assert posts[k + 1] == tail[k];
      forall i | 0 <= i < k + 1
        ensures Names(w)[i] == PageNames(posts[..k + 1])[i]
      {
        if i > 0 {
          assert w[i] == r[i - 1];
          assert Names(r)[i - 1] == PageNames(tail[..k])[i - 1];
          assert tail[..k][i - 1] == posts[i];
        }
      }
    }
  }

  /** Missing templates, a walk error or a parse error end the run before anything is written. */
  lemma FailsBeforeWriting(src: Sources, libs: Libraries)
    requires src.engine.None? || Collect(src.walk, src.files, libs.conv).Err?
    ensures SitePlan(src, libs).outcome.Failed? && SitePlan(src, libs).writes == []
  {
  }

  /**
    A successful run writes exactly the page of every post, newest first,
    then `index.html`, then `feed.xml`, whose content serialises the
    channel of the sorted posts.
  */
  lemma SuccessfulRunWrites(src: Sources, libs: Libraries)
    requires SitePlan(src, libs).outcome == Done
    ensures src.engine.Some? && Collect(src.walk, src.files, libs.conv).Ok?
    ensures var posts := SortNewestFirst(Collect(src.walk, src.files, libs.conv).value);
      var writes := SitePlan(src, libs).writes;
      && Names(writes) == PageNames(posts) + [IndexName, FeedName]
      && writes[|writes| - 1].1 == libs.feedXml(ChannelOf(posts, libs.rfc2822))
  {
    var engine := src.engine.value;
    var posts := SortNewestFirst(Collect(src.walk, src.files, libs.conv).value);
    PagesPlanDone(engine, posts);
    var pages := PagesPlan(engine, posts).writes;
    var index := engine.render(IndexTemplate, IndexPage(posts)).value;
    var tail := [(IndexName, index), (FeedName, libs.feedXml(ChannelOf(posts, libs.rfc2822)))];
    var w := pages + tail;
    forall i | 0 <= i < |w|
      ensures Names(w)[i] == (Names(pages) + [IndexName, FeedName])[i]
    {
      if i >= |pages| {
        assert w[i] == tail[i - |pages|];
      }
    }
  }

  // ---------------------------------------------------------------------
  // Applying writes

  /** The map the writes alone build: for each name written, its last content. */
  function Written(writes: seq<(string, string)>): map<string, string> {
    Apply(map[], writes)
  }

  /** Applying writes overrides the old directory with what they write. */
  lemma {:induction false} ApplyOverrides(files: map<string, string>, writes: seq<(string, string)>)
    ensures Apply(files, writes) == files + Written(writes)
    decreases |writes|
  {
    if writes != [] {
      var (k, v) := writes[0];
      ApplyOverrides(files[k := v], writes[1..]);
      ApplyOverrides(map[k := v], writes[1..]);
      assert Written(writes) == Apply(map[k := v], writes[1..]);
      assert files[k := v] == files + map[k := v];
    }
  }

  /** The names present in what the writes build are the names written. */
  lemma {:induction false} WrittenNames(writes: seq<(string, string)>)
    ensures Written(writes).Keys == set n | n in Names(writes)
    decreases |writes|
  {
    if writes != [] {
      var (k, v) := writes[0];
      ApplyOverrides(map[k := v], writes[1..]);
      WrittenNames(writes[1..]);
      assert Written(writes) == map[k := v] + Written(writes[1..]);
      assert Names(writes) == [k] + Names(writes[1..]);
    }
  }

  lemma {:induction false} ApplyAppend(files: map<string, string>, a: seq<(string, string)>, b: seq<(string, string)>)
    ensures Apply(files, a + b) == Apply(Apply(files, a), b)
    decreases |a|
  {
    if a == [] {
      assert a + b == b;
    } else {
      assert (a + b)[0] == a[0];
      assert (a + b)[1..] == a[1..] + b;
      ApplyAppend(files[a[0].0 := a[0].1], a[1..], b);
    }
  }

  lemma ApplyOne(files: map<string, string>, write: (string, string))
    ensures Apply(files, [write]) == files[write.0 := write.1]
  {
    assert [write][1..] == [];
  }

  /**
    Regenerating from unchanged sources changes nothing: the second run
    writes the same files with the same contents (whatever its outcome).
  */
  lemma RegenerationIsIdempotent(src: Sources, libs: Libraries, before: map<string, string>)
    ensures var after := Apply(before, SitePlan(src, libs).writes);
      Apply(after, SitePlan(src, libs).writes) == after
  {
    var w := SitePlan(src, libs).writes;
    ApplyOverrides(before, w);
    ApplyOverrides(before + Written(w), w);
    assert (before + Written(w)) + Written(w) == before + Written(w);
  }

  /** The page names of a reordering of the posts are those of the posts. */
  lemma PageNamesOfPermutation(posts: seq<Post>, found: seq<Post>)
    requires multiset(posts) == multiset(found)
    ensures (set n | n in PageNames(posts)) == (set p | p in found :: PageName(p.slug))
  {
    forall n | n in PageNames(posts)
      ensures n in (set p | p in found :: PageName(p.slug))
    {
      var i :| 0 <= i < |posts| && PageNames(posts)[i] == n;
      assert posts[i] in multiset(found);
    }
    forall p | p in found
      ensures PageName(p.slug) in PageNames(posts)
    {
      assert p in multiset(posts);
      var i :| 0 <= i < |posts| && posts[i] == p;
      assert PageNames(posts)[i] == PageName(p.slug);
    }
  }

  /** Applying writes adds the names written and leaves every other file as it was. */
  lemma AppliedFiles(before: map<string, string>, writes: seq<(string, string)>)
    ensures Apply(before, writes).Keys == before.Keys + (set n | n in Names(writes))
    ensures forall n :: n in before && n !in Names(writes) ==> Apply(before, writes)[n] == before[n]
  {
    ApplyOverrides(before, writes);
    WrittenNames(writes);
  }

  /** The names a successful run writes: one page per collected post, the index and the feed. */
  lemma SuccessfulRunNames(src: Sources, libs: Libraries)
    requires SitePlan(src, libs).outcome == Done
    ensures Collect(src.walk, src.files, libs.conv).Ok?
    ensures var found := Collect(src.walk, src.files, libs.conv).value;
      (set n | n in Names(SitePlan(src, libs).writes)) == (set p | p in found :: PageName(p.slug)) + {IndexName, FeedName}
  {
    SuccessfulRunWrites(src, libs);
    var found := Collect(src.walk, src.files, libs.conv).value;
    var posts := SortNewestFirst(found);
    var w := SitePlan(src, libs).writes;
    SortIsStable(found);
    PageNamesOfPermutation(posts, found);
    var pages := set p | p in found :: PageName(p.slug);
    forall n
      ensures n in Names(w) <==> n in pages + {IndexName, FeedName}
    {
      assert n in Names(w) <==> n in PageNames(posts) || n == IndexName || n == FeedName;
    }
  }

  /**
    After a successful run the directory holds what it held before plus
    the page of every post, `index.html` and `feed.xml`, and every other
    file is left as it was.
  */
  lemma SuccessfulRunOutput(src: Sources, libs: Libraries, before: map<string, string>)
    requires SitePlan(src, libs).outcome == Done
    ensures Collect(src.walk, src.files, libs.conv).Ok?
    ensures var found := Collect(src.walk, src.files, libs.conv).value;
      var after := Apply(before, SitePlan(src, libs).writes);
      && after.Keys == before.Keys + (set p | p in found :: PageName(p.slug)) + {IndexName, FeedName}
      && forall n :: n in before && n !in (set p | p in found :: PageName(p.slug)) && n != IndexName && n != FeedName
           ==> after[n] == before[n]
  {
    var w := SitePlan(src, libs).writes;
    SuccessfulRunNames(src, libs);
    AppliedFiles(before, w);
    var found := Collect(src.walk, src.files, libs.conv).value;
    var pages := set p | p in found :: PageName(p.slug);
    assert forall n :: n in Names(w) <==> n in pages + {IndexName, FeedName};
  }

  // ---------------------------------------------------------------------
  // The run

  /** Write the feed: build the channel, serialise it and write `feed.xml`. */
  method GenerateRss(posts: seq<Post>, libs: Libraries, out: OutputDir)
    requires out.created
    modifies out
    ensures out.created
    ensures out.files == old(out.files)[FeedName := libs.feedXml(ChannelOf(posts, libs.rfc2822))]
  {
    var channel := BuildChannel(posts, libs.rfc2822);
    out.Write(FeedName, libs.feedXml(channel));
  }

  /** The page loop of `generate_site`: render and write each post's page in turn. */
  method WritePages(engine: Engine, posts: seq<Post>, out: OutputDir) returns (outcome: Outcome)
    requires out.created
    modifies out
    ensures out.created
    ensures outcome == PagesPlan(engine, posts).outcome
    ensures out.files == Apply(old(out.files), PagesPlan(engine, posts).writes)
  {
    ghost var before := out.files;
    ghost var whole := PagesPlan(engine, posts);
    ghost var done: seq<(string, string)> := [];
    assert posts[0..] == posts;
    assert [] + whole.writes == whole.writes;
    for i := 0 to |posts|
      invariant out.created
      invariant out.files == Apply(before, done)
      invariant whole.outcome == PagesPlan(engine, posts[i..]).outcome
      invariant whole.writes == done + PagesPlan(engine, posts[i..]).writes
    {
      var page := engine.render(PostTemplate, PostContext(posts[i]));
      if page.None? {
        PagesPlanAt(engine, posts, i);
        assert done + [] == done;
        return Failed(RenderFailed(PostTemplate));
      }
      var write := (PageName(posts[i].slug), page.value);
      PagesStep(engine, posts, i, done);
      ApplyStep(before, done, write);
      out.Write(write.0, write.1);
      done := done + [write];
    }
    assert posts[|posts|..] == [];
    assert done + [] == done;
    return Done;
  }

  /** One rendered page moves the written prefix of the pages plan on by its write. */
  lemma PagesStep(engine: Engine, posts: seq<Post>, i: nat, done: seq<(string, string)>)
    requires i < |posts|
    requires engine.render(PostTemplate, PostContext(posts[i])).Some?
    ensures var write := (PageName(posts[i].slug), engine.render(PostTemplate, PostContext(posts[i])).value);
      && PagesPlan(engine, posts[i..]).outcome == PagesPlan(engine, posts[i + 1..]).outcome
      && done + PagesPlan(engine, posts[i..]).writes == (done + [write]) + PagesPlan(engine, posts[i + 1..]).writes
  {
    PagesPlanAt(engine, posts, i);
  }

  /** Applying one more write to the result of earlier writes. */
  lemma ApplyStep(files: map<string, string>, done: seq<(string, string)>, write: (string, string))
    ensures Apply(files, done + [write]) == Apply(files, done)[write.0 := write.1]
  {
    ApplyAppend(files, done, [write]);
    ApplyOne(Apply(files, done), write);
  }

  /**
    `generate_site`. The directory is created first; the outcome and the
    files written are those of the run's plan.
  */
  method GenerateSite(src: Sources, libs: Libraries, out: OutputDir) returns (outcome: Outcome)
    modifies out
    ensures out.created
    ensures outcome == SitePlan(src, libs).outcome
    ensures out.files == Apply(old(out.files), SitePlan(src, libs).writes)
  {
    out.CreateAll();
    if src.engine.None? {
      return Failed(TemplateInitFailed);
    }
    var engine := src.engine.value;
    var collected := CollectPosts(src.walk, src.files, libs.conv);
    if collected.Err? {
      return Failed(collected.error);
    }
    var found := collected.value;
    var a := new Post[|found|](i requires 0 <= i < |found| => found[i]);
    assert a[..] == found;
    SortPosts(a);
    var posts := a[..];

    outcome := WritePages(engine, posts, out);
    if outcome.Failed? {
      return;
    }
    ghost var pages := out.files;
    var index := engine.render(IndexTemplate, IndexPage(posts));
    if index.None? {
      return Failed(RenderFailed(IndexTemplate));
    }
    out.Write(IndexName, index.value);
    GenerateRss(posts, libs, out);
    ghost var tail := [(IndexName, index.value), (FeedName, libs.feedXml(ChannelOf(posts, libs.rfc2822)))];
    ApplyAppend(old(out.files), PagesPlan(engine, posts).writes, tail);
    assert Apply(pages, tail) == Apply(pages[IndexName := index.value], tail[1..]);
    assert tail[1..][0] == tail[1] && tail[1..][1..] == [];
    return Done;
  }
}
