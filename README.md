# trk: a verified model of the static site generator

`trk` turns a directory of markdown posts into a static site. A post's
YAML front matter is the text between the first and second occurrences of
`---` followed by a newline, wherever they fall in the file (not only at the
start of a line). Any text before the first occurrence is ignored, and the
body is the text after the second, up to a third occurrence if there is one. The site is one
HTML page per post, an `index.html` listing the posts newest first, and an
RSS `feed.xml`. The `dev` command generates the site once, then regenerates
it whenever the content or template directories change.

This project models that core in Dafny:

- `results.dfy`: `Option` and `Result`.
- `dates.dfy`: the post timestamp, chrono's ordering of instants, and
  `format_date`, including Rust's sign-aware zero padding.
- `paths.dfy`: `file_name`, `file_stem` and `extension` of a path given as
  its components, and the slug of a post.
- `document.dfy`: `str::split` on `"---\n"` and `parse_markdown_file`.
- `collection.dfy`: the newest-first stable `sort_by`. It is specified as a
  functional insertion sort, which is proved to be the unique stable
  newest-first reordering. An in-place array sort is proved to produce it.
- `feed.dfy`: the channel and items of `generate_rss`.
- `site.dfy`: `generate_site`. The output directory is a class with
  `created` and `files` fields. A run is specified by its plan: an outcome
  plus the ordered list of files it writes.
- `watch.dfy`: the `dev` command and its watch loop, over a finite
  sequence of `recv_timeout` results.

These libraries are passed in as functions, because their behaviour is
outside this program:

- serde_yaml front-matter parsing
- pulldown-cmark rendering
- Tera template loading and rendering
- chrono's RFC 2822 rendering
- rss serialisation

The file system is modelled as a map from path to text for reading and as
the `OutputDir` object for writing. The directory walk is the sequence of
entries it yields.

## Model

| member | source | states |
|---|---|---|
| Dates.EarlierIsStrictTotalOrder | src/main.rs:147 | The date comparison used by the sort is a strict total order on timestamps: irreflexive, asymmetric, transitive and total. |
| Dates.FormatPaddedReadBack | src/main.rs:65 | A number formatted with `{:0w}` zero padding reads back as the same integer, negative values included. |
| Dates.FormatPaddedFixedWidth | src/main.rs:65 | A number below 10^w formats to exactly w digits whose value is the number. |
| Dates.FormatDateShape | src/main.rs:64-66 | For years 0..9999 the formatted date is exactly 10 characters: 4 digits, `-`, 2 digits, `-`, 2 digits, with values year, month and day. |
| Dates.ParseDateOfParts | src/main.rs:65 | A year that parses, followed by two-digit month and day fields separated by dashes, reads back as those three values. |
| Dates.FormatDateReadBack | src/main.rs:64-66 | Parsing `format_date`'s output from the right recovers (year, month, day) for every valid timestamp. |
| Paths.StemAndExtension | src/main.rs:87-91 | When there is an extension, the file name is stem + "." + extension. Otherwise the stem is the whole name. Without a file name there is neither. |
| Paths.ExtensionHasNoDot | src/main.rs:140 | An extension contains no dot, and a stem that has an extension is never empty. |
| Paths.MarkdownSlug | src/main.rs:87-91 | A `.md` file's slug is non-empty and equals its file name minus `.md`. A path with no file name gets the empty slug (`unwrap_or_default`). |
| Document.IndexOf | src/main.rs:70 | The result is the first occurrence of the pattern at or after `from`, or none exists. |
| Document.Split | src/main.rs:70 | `str::split`: there is at least one part, joining the parts with the delimiter gives back the input, and no part contains the delimiter. |
| Document.SplitCount | src/main.rs:70 | Splitting on `"---\n"` gives one more part than there are delimiter occurrences. |
| Document.SplitAfterFree | src/main.rs:70 | The first part ends at the first delimiter and the rest is split recursively. |
| Document.ParseMarkdownFile | src/main.rs:68-101 | The result is the read error exactly when the file cannot be read. Only the malformed-format error names the file's path; the read and YAML errors do not. A parsed post's slug is the file stem and its displayed date is `format_date` of its front-matter date. |
| Document.SplitBodyAndTail | src/main.rs:70 | A delimiter-free body followed by nothing or by a delimiter splits into the body, then the parts after that delimiter. |
| Document.RejectedIffFewerThanTwoDelimiters | src/main.rs:70-74 | A readable file is rejected as malformed exactly when it has fewer than two `"---\n"` occurrences, i.e. fewer than three parts. |
| Document.ParseLayout | src/main.rs:69-100 | For `pre --- header --- body [--- anything]`, the post depends only on the header (YAML) and the body (rendered markdown). The preamble and everything after a third delimiter are ignored. A header the YAML reader refuses gives the front-matter error. |
| Collection.DatedAtSelects | src/main.rs:147 | The posts with a given date, kept in their order, are posts of the list with that date. There is at least one exactly when some post has that date. |
| Collection.InsertMultiset | src/main.rs:147 | Inserting a post adds exactly that post. |
| Collection.InsertNewestFirst | src/main.rs:147 | Inserting into a newest-first list keeps it newest-first. |
| Collection.InsertDatedAt | src/main.rs:147 | Insertion puts the new post after every post with the same date. |
| Collection.SortIsStable | src/main.rs:147 | The sort result is newest-first, is a permutation of the input, and keeps posts with equal dates in input order. |
| Collection.SortStepSorts | src/main.rs:147 | Adding one post keeps the sort result newest-first and a permutation of the input. |
| Collection.SortStepKeepsDateOrder | src/main.rs:147 | Adding one post keeps each date's posts in input order. |
| Collection.StableOrderIsUnique | src/main.rs:147 | Two newest-first lists that order each date's posts the same way are equal. |
| Collection.StableSortCharacterised | src/main.rs:147 | Every newest-first, stable reordering of the posts equals `SortNewestFirst`, so the specification is exactly what a stable `sort_by` yields. |
| Collection.TwoPostsExample | src/main.rs:147 | Posts dated 2024-01-01 and 2024-06-01 come out June first. |
| Collection.InsertIntoPlace | src/main.rs:147 | Moving `a[i]` down by adjacent swaps turns `a[..i+1]` into the insertion of the old `a[i]` into the sorted prefix and leaves the rest alone. |
| Collection.SortPosts | src/main.rs:147 | The in-place sort leaves the array equal to `SortNewestFirst` of its old contents. |
| Feed.ChannelOf | src/main.rs:103-119 | The channel has title "Memo", link "https://trkw.github.io" and description "My memo posts", plus one item per post in post order. Each item carries the post's title, description, page link and RFC 2822 date. |
| Feed.LinkRoundTrip | src/main.rs:113 | The slug can be recovered from a post's link. |
| Feed.FeedListsPostsInOrder | src/main.rs:110-119 | Reading the slugs back out of the feed's links gives the posts' slugs in order. |
| Feed.BuildChannel | src/main.rs:104-119 | The push loop builds exactly `ChannelOf` of the posts. |
| Site.OutputDir.CreateAll | src/main.rs:130 | `create_dir_all` leaves the directory existing and its files unchanged. |
| Site.OutputDir.Write | src/main.rs:158 | `fs::write` creates or overwrites one file and changes nothing else. |
| Site.CollectStopsAtFirstError | src/main.rs:137-144 | Collection fails exactly when some walk entry fails, either a walk error or an unparsable `.md` file. The error reported is that of the first failing entry in walk order. |
| Site.CollectParsesMarkdownOnly | src/main.rs:137-144 | A successful collection holds one post per `.md` entry, in walk order, each the parse of that file. Entries with any other extension are not read. |
| Site.CollectStep | src/main.rs:138-143 | Each entry either stops the collection with its error, is skipped, or appends its post. |
| Site.CollectPosts | src/main.rs:137-144 | The fail-fast push loop computes `Collect`. |
| Site.PagesPlanDone | src/main.rs:150-159 | When every page renders, the names written are the posts' `<slug>.html`, in sorted order. |
| Site.PagesPlanFailed | src/main.rs:150-159 | When a page fails to render, the run fails with the `post.html` error. The pages of the posts before it stay written, and nothing after it is written. |
| Site.FailsBeforeWriting | src/main.rs:130-144 | A template load failure, a walk error or a parse error ends the run before any file is written. |
| Site.SuccessfulRunWrites | src/main.rs:147-168 | A successful run writes every post's page newest first, then `index.html`, then `feed.xml`. The feed content serialises the channel of the sorted posts. |
| Site.ApplyOverrides | src/main.rs:158 | Writing files in sequence yields the old directory overridden by the last content written to each name. |
| Site.WrittenNames | src/main.rs:158 | The names the writes create are exactly the names written. |
| Site.ApplyAppend | src/main.rs:150-168 | Applying two batches of writes equals applying their concatenation. |
| Site.RegenerationIsIdempotent | src/main.rs:128-172 | Rerunning on unchanged sources leaves the output directory exactly as the first run left it, whatever the outcome. |
| Site.AppliedFiles | src/main.rs:158 | Writes add the written names and leave every other file as it was. |
| Site.SuccessfulRunNames | src/main.rs:150-168 | A successful run writes exactly one page per collected post, plus `index.html` and `feed.xml`. |
| Site.PageNamesOfPermutation | src/main.rs:147-157 | Sorting does not change the set of page names. |
| Site.SuccessfulRunOutput | src/main.rs:128-172 | After a successful run the directory holds its old files, plus each post's page, `index.html` and `feed.xml`. Every other file is unchanged. |
| Site.GenerateRss | src/main.rs:103-126 | `feed.xml` is set to the serialised channel of the posts, and nothing else changes. |
| Site.WritePages | src/main.rs:150-159 | The page loop's outcome and writes are those of `PagesPlan`. |
| Site.GenerateSite | src/main.rs:128-172 | The output directory exists afterwards, and the outcome and the files written are those of the run's plan. |
| Watch.OneRegenerationPerChange | src/main.rs:208-222 | Each notification delivered before a disconnect triggers exactly one full regeneration, in arrival order and whether it fails or not. The loop's writes are theirs, and it reports one change per notification. |
| Watch.StopsOnlyOnDisconnect | src/main.rs:216-219 | The loop reports a stop exactly when the channel disconnects, and the stop is its last line. |
| Watch.TimeoutsAreIgnored | src/main.rs:215 | Timeouts do nothing: dropping them leaves the loop's behaviour unchanged. |
| Watch.NothingAfterDisconnect | src/main.rs:216-219 | Nothing after a disconnect has any effect. |
| Watch.RepeatedChangeIsHarmless | src/main.rs:208-214 | Two notifications with nothing changed in between write the same output as one. There is no debouncing, but it is not needed for correctness. |
| Watch.WatchLoop | src/main.rs:208-222 | The loop's log and its writes to the output directory are those of `Listen` over the `recv_timeout` results. |
| Watch.Dev | src/main.rs:191-222 | A failed initial generation ends the command with its error, and no watching starts. Otherwise the watch loop runs on the generated site. |

## Left out

- Error messages: errors are modelled only by their variant and, where the program's message names it, the file's path. The message texts of `anyhow`, the I/O library and the YAML reader are not modelled.
- Terminal output (`println!`, `eprintln!`): the watch loop's messages are modelled as log lines, and the rest is not modelled.
- Write failures: `fs::write`, `File::create` and `write_all` (src/main.rs:158, 165, 122-123) always succeed in the model. Only template loading, the walk, reading, parsing and rendering can fail.
- `create_dir_all` failures (src/main.rs:130) are not modelled: the call always succeeds.
- The libraries are opaque functions supplied by the caller:
  - YAML deserialisation, including the required `title` and `date`, the defaulted `description`, and RFC 3339 date parsing
  - markdown rendering with strikethrough and tables
  - Tera loading and rendering, including the `posts` serialisation in the index context
  - RFC 2822 formatting
  - RSS XML serialisation
- Paths: a path is given as its already split components. Parsing a path string into components and `to_string_lossy` on non-UTF-8 names are not modelled.
- Directory walk: `WalkDir`'s traversal order is whatever sequence of entries is supplied. Directories are entries like any other, and one named `x.md` would be parsed and fail to read.
- Dates: chrono's supported year range is not modelled; any integer year is allowed. Leap seconds are represented, as chrono does, by a nanosecond count of one second or more.
- Collection.SortPosts: Rust's `sort_by` algorithm (a merge sort) is replaced by an insertion sort. The result is proved to be the unique stable newest-first order, so it matches `sort_by`'s result, but not its running time.
- Name collisions: the index page is written after the post pages. A post with slug `index` has its page overwritten by the index, and the model reproduces this (a later write wins).
- Command-line parsing (clap) and its defaults (`content`, `templates`, `public`) are not modelled. The `generate` command is `Site.GenerateSite` itself.
- Watcher setup (`recommended_watcher`, `watch`), whose errors end `dev`, is not modelled.
- The watcher thread's concurrency with the HTTP server is not modelled.
- The 100 ms timeout is not modelled: a timeout is one `TimedOut` result.
- The endless loop is modelled over a finite sequence of `recv_timeout` results.
- Notification kinds: an event and a watcher error delivered on the channel both trigger regeneration, and the model does not distinguish them.
- The static file server (warp on 127.0.0.1:3000) is not modelled. The `--port` argument is ignored by the program itself.
