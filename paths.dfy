/**
  File-system paths as Rust's `std::path::Path` sees them after splitting
  into components, and the three queries the generator makes of a path:
  `file_name`, `file_stem` and `extension`, plus the slug derived from the
  stem.
*/
module Paths {
  import opened Results

  datatype Component = RootDir | CurDir | ParentDir | Normal(name: string)

  /** A path as the sequence its `components()` iterator yields. */
  type Path = seq<Component>

  /** `Path::file_name`: the last component when it is a normal name. */
  function FileName(p: Path): Option<string> {
    if |p| > 0 && p[|p| - 1].Normal? then Some(p[|p| - 1].name) else None
  }

  /** The index of the last `'.'` in `s`, if any. */
  function LastDot(s: string): (r: Option<nat>)
    ensures r.Some? ==> r.value < |s| && s[r.value] == '.'
    ensures r.Some? ==> forall i :: r.value < i < |s| ==> s[i] != '.'
    ensures r.None? ==> forall i :: 0 <= i < |s| ==> s[i] != '.'
    decreases |s|
  {
    if s == [] then None
    else if s[|s| - 1] == '.' then Some(|s| - 1)
    else LastDot(s[..|s| - 1])
  }

  /**
    Splits a file name at its last dot into the part before and the part
    after it. A name with no dot has no "before" part; a name whose only
    dot is its first character, and the name `..`, are not split.
  */
  function SplitAtLastDot(name: string): (Option<string>, Option<string>) {
    if name == ".." then (Some(name), None)
    else match LastDot(name)
      case None => (None, Some(name))
      case Some(i) =>
        if i == 0 then (Some(name), None) else (Some(name[..i]), Some(name[i + 1..]))
  }

  /** `Path::file_stem`: the file name without its final extension. */
  function FileStem(p: Path): Option<string> {
    match FileName(p)
    case None => None
    case Some(name) =>
      var (before, after) := SplitAtLastDot(name);
      if before.Some? then before else after
  }

  /** `Path::extension`: what follows the last dot of the file name, if the name has one past its start. */
  function Extension(p: Path): Option<string> {
    match FileName(p)
    case None => None
    case Some(name) =>
      var (before, after) := SplitAtLastDot(name);
      if before.Some? then after else None
  }

  /** The identifier of a post: `file_stem().unwrap_or_default()`. */
  function Slug(p: Path): string {
    FileStem(p).UnwrapOr("")
  }

  /** Only files whose extension is exactly `md` are source documents. */
  predicate IsMarkdown(p: Path) {
    Extension(p) == Some("md")
  }

  /**
    The stem and the extension partition the file name: when there is an
    extension the name is stem, dot, extension; otherwise the stem is the
    whole name. Without a file name there is neither.
  */
  lemma StemAndExtension(p: Path)
    ensures FileName(p).None? ==> FileStem(p).None? && Extension(p).None?
    ensures Extension(p).Some? ==>
      (FileStem(p).Some? && FileName(p) == Some(FileStem(p).value + "." + Extension(p).value))
    ensures FileName(p).Some? && Extension(p).None? ==> FileStem(p) == FileName(p)
  {
    if FileName(p).Some? {
      var name := FileName(p).value;
      if name != ".." && LastDot(name).Some? && LastDot(name).value != 0 {
        var i := LastDot(name).value;
        assert name == name[..i] + "." + name[i + 1..];
      }
    }
  }

  /**
    The extension never contains a dot, so the stem is the name cut at its
    last dot, and a stem with an extension is never empty.
  */
  lemma ExtensionHasNoDot(p: Path)
    requires Extension(p).Some?
    ensures forall i :: 0 <= i < |Extension(p).value| ==> Extension(p).value[i] != '.'
    ensures FileStem(p).value != ""
  {
  }

  /**
    The slug of every source document is its file name with the `.md`
    suffix removed, and it is never empty; a path without a file name has
    the empty slug.
  */
  lemma MarkdownSlug(p: Path)
    ensures IsMarkdown(p) ==> Slug(p) != "" && FileName(p) == Some(Slug(p) + ".md")
    ensures FileName(p).None? ==> Slug(p) == ""
  {
    StemAndExtension(p);
    if IsMarkdown(p) {
      ExtensionHasNoDot(p);
      assert FileStem(p).value + "." + "md" == Slug(p) + ".md";
    }
  }
}
