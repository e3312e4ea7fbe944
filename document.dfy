/**
  `parse_markdown_file`: a source document is split on the delimiter
  `"---\n"`; the second part is the YAML front matter and the third the
  markdown body. The YAML reader and the markdown renderer are libraries and
  appear here as functions handed in by the caller.
*/
module Document {
  import opened Results
  import opened Dates
  import opened Paths

  const Delimiter: string := "---\n"

  /** `sep` occurs in `s` starting at index `i`. */
  predicate OccursAt(s: string, sep: string, i: int) {
    0 <= i && i + |sep| <= |s| && s[i..i + |sep|] == sep
  }

  /** `s` contains no occurrence of `sep`. */
  predicate Free(s: string, sep: string) {
    forall i :: 0 <= i < |s| ==> !OccursAt(s, sep, i)
  }

  /** The first occurrence of `sep` in `s` at or after `from`. */
  function IndexOf(s: string, sep: string, from: nat): (r: Option<nat>)
    ensures r.Some? ==> from <= r.value && OccursAt(s, sep, r.value)
    ensures r.Some? ==> forall j :: from <= j < r.value ==> !OccursAt(s, sep, j)
    ensures r.None? ==> forall j :: from <= j ==> !OccursAt(s, sep, j)
    decreases |s| - from
  {
    if from + |sep| > |s| then None
    else if s[from..from + |sep|] == sep then Some(from)
    else IndexOf(s, sep, from + 1)
  }

  /** The parts joined back with `sep` between each two of them. */
  function Join(parts: seq<string>, sep: string): string
    decreases |parts|
  {
    if parts == [] then ""
    else if |parts| == 1 then parts[0]
    else parts[0] + sep + Join(parts[1..], sep)
  }

  lemma FreePrefix(s: string, sep: string, i: nat)
    requires i <= |s|
    requires forall j :: 0 <= j < i ==> !OccursAt(s, sep, j)
    ensures Free(s[..i], sep)
  {
    forall j | 0 <= j < i
      ensures !OccursAt(s[..i], sep, j)
    {
      assert !OccursAt(s, sep, j);
      if j + |sep| <= i {
        assert s[..i][j..j + |sep|] == s[j..j + |sep|];
      }
    }
  }

  /**
    Rust's `str::split` with a non-empty string pattern: the pieces between
    the non-overlapping occurrences of `sep`, found left to right. The pieces
    joined with `sep` give back `s`, and no piece contains `sep`.
  */
  function Split(s: string, sep: string): (parts: seq<string>)
    requires |sep| > 0
    ensures |parts| >= 1
    ensures Join(parts, sep) == s
    ensures forall k :: 0 <= k < |parts| ==> Free(parts[k], sep)
    decreases |s|
  {
    match IndexOf(s, sep, 0)
    case None =>
      assert s[..|s|] == s;
      FreePrefix(s, sep, |s|);
      [s]
    case Some(i) =>
      var rest := Split(s[i + |sep|..], sep);
      FreePrefix(s, sep, i);
      assert s == s[..i] + sep + s[i + |sep|..] by {
        assert s[i..i + |sep|] == sep;
      }
      assert ([s[..i]] + rest)[1..] == rest;
      [s[..i]] + rest
  }

  /** The number of places in `s` where the delimiter starts. */
  function Occurrences(s: string): nat
    decreases |s|
  {
    if |s| < |Delimiter| then 0
    else (if s[..|Delimiter|] == Delimiter then 1 else 0) + Occurrences(s[1..])
  }

  // ---------------------------------------------------------------------
  // Facts about the delimiter

  lemma DelimiterChars(s: string, i: int)
    requires OccursAt(s, Delimiter, i)
    ensures s[i] == '-' && s[i + 1] == '-' && s[i + 2] == '-' && s[i + 3] == '\n'
  {
    var w := s[i..i + 4];
    assert w == Delimiter;
    assert w[0] == s[i] && w[1] == s[i + 1] && w[2] == s[i + 2] && w[3] == s[i + 3];
  }

  /** Two occurrences of `"---\n"` never overlap: its only newline is its last character. */
  lemma NoOverlap(s: string, i: int, k: int)
    requires OccursAt(s, Delimiter, i) && 1 <= k < |Delimiter|
    ensures !OccursAt(s, Delimiter, i + k)
  {
    DelimiterChars(s, i);
    if i + k + 4 <= |s| {
      assert s[i + k..i + k + 4][3 - k] == '\n' != Delimiter[3 - k];
    }
  }

  lemma {:induction false} OccurrencesSkip(s: string, k: nat)
    requires k <= |s|
    requires forall j :: 0 <= j < k ==> !OccursAt(s, Delimiter, j)
    ensures Occurrences(s) == Occurrences(s[k..])
    decreases k
  {
    if k > 0 && |s| >= |Delimiter| {
      assert !OccursAt(s, Delimiter, 0);
      forall j | 0 <= j < k - 1
        ensures !OccursAt(s[1..], Delimiter, j)
      {
        if OccursAt(s[1..], Delimiter, j) {
          assert s[1..][j..j + 4] == s[j + 1..j + 1 + 4];
          assert OccursAt(s, Delimiter, j + 1);
        }
      }
      OccurrencesSkip(s[1..], k - 1);
      assert s[1..][k - 1..] == s[k..];
    } else if k > 0 {
      assert Occurrences(s) == 0 && Occurrences(s[k..]) == 0;
    }
  }

  /** Splitting on the delimiter yields one more part than the delimiter has occurrences. */
  lemma {:induction false} SplitCount(s: string)
    ensures |Split(s, Delimiter)| == Occurrences(s) + 1
    decreases |s|
  {
    match IndexOf(s, Delimiter, 0)
    case None =>
      OccurrencesSkip(s, |s|);
      assert Occurrences(s[|s|..]) == 0;
    case Some(i) =>
      OccurrencesSkip(s, i);
      var t := s[i..];
      assert t[..4] == Delimiter;
      assert Occurrences(t) == 1 + Occurrences(t[1..]);
      forall j | 0 <= j < 3
        ensures !OccursAt(t[1..], Delimiter, j)
      {
        NoOverlap(s, i, j + 1);
      }
      OccurrencesSkip(t[1..], 3);
      assert t[1..][3..] == s[i + 4..];
      SplitCount(s[i + 4..]);
  }

  /**
    When `a` holds no delimiter, the first delimiter of `a + "---\n" + b`
    is the one right after `a`: splitting yields `a`, then the parts of `b`.
  */
  lemma SplitAfterFree(a: string, b: string)
    requires Free(a, Delimiter)
    ensures Split(a + Delimiter + b, Delimiter) == [a] + Split(b, Delimiter)
  {
    var s := a + Delimiter + b;
    assert OccursAt(s, Delimiter, |a|) by {
      assert s[|a|..|a| + 4] == Delimiter;
    }
    DelimiterChars(s, |a|);
    forall j | 0 <= j < |a|
      ensures !OccursAt(s, Delimiter, j)
    {
      if j + 4 <= |a| {
        assert !OccursAt(a, Delimiter, j);
        assert s[j..j + 4] == a[j..j + 4];
      } else if j + 4 <= |s| {
        assert s[j..j + 4][3] == s[j + 3] == '-' != Delimiter[3];
      }
    }
    var r := IndexOf(s, Delimiter, 0);
    assert r == Some(|a|);
    assert s[..|a|] == a && s[|a| + 4..] == b;
  }

  lemma SplitOfFree(b: string)
    requires Free(b, Delimiter)
    ensures Split(b, Delimiter) == [b]
  {
    var r := IndexOf(b, Delimiter, 0);
    assert r.None?;
  }

  // ---------------------------------------------------------------------
  // Posts

  /** The YAML header: `title` and `date` are required, `description` defaults to empty. */
  datatype FrontMatter = FrontMatter(title: string, date: Timestamp, description: string)

  /** A parsed document: its front matter, its body as HTML, its slug and its displayed date. */
  datatype Post = Post(frontMatter: FrontMatter, content: string, slug: string, formattedDate: string)

  datatype ParseError =
    | Unreadable                // `fs::read_to_string` failed; the I/O error does not name the file
    | InvalidFormat(path: Path) // fewer than three parts; the message names the file
    | InvalidFrontMatter        // `serde_yaml::from_str` failed; the YAML error does not name the file

  /**
    The two libraries a parse relies on: YAML deserialisation of the front
    matter, which may fail, and markdown to HTML (strikethrough and tables
    enabled), which cannot.
  */
  datatype Converters = Converters(
    frontMatter: string -> Option<FrontMatter>,
    markdownToHtml: string -> string)

  /**
    `parse_markdown_file`. A file is readable when `files` holds its text.
    The post's slug is the file's stem and its displayed date is
    `format_date` of the front-matter date.
  */
  function ParseMarkdownFile(path: Path, files: map<Path, string>, conv: Converters): (r: Result<Post, ParseError>)
    ensures r == Err(Unreadable) <==> path !in files
    ensures r.Err? && r.error.InvalidFormat? ==> r.error.path == path
    ensures r.Ok? ==> r.value.slug == Slug(path) && r.value.formattedDate == FormatDate(r.value.frontMatter.date)
  {
    if path !in files then Err(Unreadable)
    else
      var parts := Split(files[path], Delimiter);
      if |parts| < 3 then Err(InvalidFormat(path))
      else match conv.frontMatter(parts[1])
        case None => Err(InvalidFrontMatter)
        case Some(fm) => Ok(Post(fm, conv.markdownToHtml(parts[2]), Slug(path), FormatDate(fm.date)))
  }

  /** A readable file is rejected as malformed exactly when it holds fewer than two delimiters. */
  lemma RejectedIffFewerThanTwoDelimiters(path: Path, files: map<Path, string>, conv: Converters)
    requires path in files
    ensures ParseMarkdownFile(path, files, conv) == Err(InvalidFormat(path)) <==> Occurrences(files[path]) < 2
  {
    SplitCount(files[path]);
  }

  /** A delimiter-free body followed by nothing or by a delimiter splits into the body, then the rest. */
  lemma SplitBodyAndTail(body: string, tail: string)
    requires Free(body, Delimiter)
    requires tail == [] || (|tail| >= |Delimiter| && tail[..|Delimiter|] == Delimiter)
    ensures Split(body + tail, Delimiter)
         == [body] + (if tail == [] then [] else Split(tail[|Delimiter|..], Delimiter))
  {
    if tail == [] {
      assert body + tail == body;
      SplitOfFree(body);
    } else {
      var after := tail[|Delimiter|..];
      assert tail == Delimiter + after;
      assert body + tail == body + Delimiter + after;
      SplitAfterFree(body, after);
    }
  }

  /** Regrouping the layout of a document around its first two delimiters. */
  lemma LayoutRegroup(pre: string, header: string, body: string, tail: string)
    ensures pre + Delimiter + header + Delimiter + body + tail
         == pre + Delimiter + (header + Delimiter + (body + tail))
  {
  }

  /** The parts of a document laid out as `pre`, delimiter, header, delimiter, body, tail. */
  lemma LayoutParts(pre: string, header: string, body: string, tail: string)
    requires Free(pre, Delimiter) && Free(header, Delimiter) && Free(body, Delimiter)
    requires tail == [] || (|tail| >= |Delimiter| && tail[..|Delimiter|] == Delimiter)
    ensures var parts := Split(pre + Delimiter + header + Delimiter + body + tail, Delimiter);
      |parts| >= 3 && parts[1] == header && parts[2] == body
  {
    var t2 := body + tail;
    var t1 := header + Delimiter + t2;
    LayoutRegroup(pre, header, body, tail);
    SplitAfterFree(pre, t1);
    SplitAfterFree(header, t2);
    SplitBodyAndTail(body, tail);
  }

  /**
    The layout of a parseable document: `pre`, delimiter, front matter,
    delimiter, body, then either nothing or a third delimiter and anything.
    Only the front matter and the body decide the post: the preamble and
    everything from a third delimiter on are ignored, and a front matter the
    YAML reader refuses yields an error and no post.
  */
  lemma ParseLayout(path: Path, files: map<Path, string>, conv: Converters,
                    pre: string, header: string, body: string, tail: string)
    requires path in files
    requires files[path] == pre + Delimiter + header + Delimiter + body + tail
    requires Free(pre, Delimiter) && Free(header, Delimiter) && Free(body, Delimiter)
    requires tail == [] || (|tail| >= |Delimiter| && tail[..|Delimiter|] == Delimiter)
    ensures ParseMarkdownFile(path, files, conv) ==
      match conv.frontMatter(header)
      case None => Err(InvalidFrontMatter)
      case Some(fm) => Ok(Post(fm, conv.markdownToHtml(body), Slug(path), FormatDate(fm.date)))
  {
    LayoutParts(pre, header, body, tail);
  }
}
