/**
  The RSS channel of `generate_rss`: fixed channel fields and one item per
  post, in the order of the posts. Serialising the channel to XML and the
  RFC 2822 rendering of dates are library calls, handed in as functions.
*/
module Feed {
  import opened Results
  import opened Dates
  import opened Document

  const ChannelTitle: string := "Memo"
  const ChannelLink: string := "https://trkw.github.io"
  const ChannelDescription: string := "My memo posts"
  const ItemLinkPrefix: string := "https://trkw.github.io/"
  const PageSuffix: string := ".html"

  datatype Item = Item(title: string, link: string, description: string, pubDate: string)

  datatype Channel = Channel(title: string, link: string, description: string, items: seq<Item>)

  /** The name of a post's page in the output directory: `format!("{}.html", slug)`. */
  function PageName(slug: string): string {
    slug + PageSuffix
  }

  /** The address of a post's page, the site's root followed by the page's name. */
  function PostLink(slug: string): string {
    ItemLinkPrefix + PageName(slug)
  }

  /** The slug a page address names, if it is one. */
  function SlugOfLink(link: string): Option<string> {
    if |link| >= |ItemLinkPrefix| + |PageSuffix|
       && link[..|ItemLinkPrefix|] == ItemLinkPrefix
       && link[|link| - |PageSuffix|..] == PageSuffix
    then Some(link[|ItemLinkPrefix|..|link| - |PageSuffix|])
    else None
  }

  /** The item `ItemBuilder` makes of one post. */
  function ItemFor(post: Post, rfc2822: Timestamp -> string): Item {
    Item(post.frontMatter.title, PostLink(post.slug), post.frontMatter.description,
         rfc2822(post.frontMatter.date))
  }

  /**
    The channel `generate_rss` builds: its items are a one-to-one,
    order-preserving image of the posts, each with the post's title and
    description, the address of its page and its date in RFC 2822 form.
  */
  function ChannelOf(posts: seq<Post>, rfc2822: Timestamp -> string): (c: Channel)
    ensures c.title == ChannelTitle && c.link == ChannelLink && c.description == ChannelDescription
    ensures |c.items| == |posts|
    ensures forall i :: 0 <= i < |posts| ==>
      && c.items[i].title == posts[i].frontMatter.title
      && c.items[i].link == PostLink(posts[i].slug)
      && c.items[i].description == posts[i].frontMatter.description
      && c.items[i].pubDate == rfc2822(posts[i].frontMatter.date)
  {
    Channel(ChannelTitle, ChannelLink, ChannelDescription,
            seq(|posts|, i requires 0 <= i < |posts| => ItemFor(posts[i], rfc2822)))
  }

  /** A page address names exactly the slug it was made from. */
  lemma LinkRoundTrip(slug: string)
    ensures SlugOfLink(PostLink(slug)) == Some(slug)
  {
    var link := PostLink(slug);
    assert link[..|ItemLinkPrefix|] == ItemLinkPrefix;
    assert link[|link| - |PageSuffix|..] == PageSuffix;
    assert link[|ItemLinkPrefix|..|link| - |PageSuffix|] == slug;
  }

  /** Reading the slugs back out of the feed's links gives the posts' slugs, in the posts' order. */
  lemma FeedListsPostsInOrder(posts: seq<Post>, rfc2822: Timestamp -> string)
    ensures var items := ChannelOf(posts, rfc2822).items;
      forall i :: 0 <= i < |posts| ==> SlugOfLink(items[i].link) == Some(posts[i].slug)
  {
    forall i | 0 <= i < |posts|
      ensures SlugOfLink(ChannelOf(posts, rfc2822).items[i].link) == Some(posts[i].slug)
    {
      LinkRoundTrip(posts[i].slug);
    }
  }

  /** The loop of `generate_rss`: start from the fixed channel and push one item per post. */
  method BuildChannel(posts: seq<Post>, rfc2822: Timestamp -> string) returns (channel: Channel)
    ensures channel == ChannelOf(posts, rfc2822)
  {
    channel := Channel(ChannelTitle, ChannelLink, ChannelDescription, []);
    for i := 0 to |posts|
      invariant channel.title == ChannelTitle && channel.link == ChannelLink
      invariant channel.description == ChannelDescription
      invariant |channel.items| == i
      invariant forall k :: 0 <= k < i ==> channel.items[k] == ItemFor(posts[k], rfc2822)
    {
      var item := ItemFor(posts[i], rfc2822);
      channel := channel.(items := channel.items + [item]);
    }
  }
}
