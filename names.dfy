/** Article names. Both article stores keep an article under its name with the `.md`
    extension added when it is missing, and both list only names that end in `.md`. */
module ArticleNames {
  import opened Text

  const Extension: string := ".md"

  predicate IsMarkdownName(name: string) {
    EndsWith(name, Extension)
  }

  /** The name an article is stored under: `filename` when it already ends in `.md`,
      otherwise `filename` followed by `.md`. */
  function EnsureMarkdownExtension(filename: string): (r: string)
    ensures IsMarkdownName(r)
    ensures StartsWith(r, filename) && |r| <= |filename| + |Extension|
    ensures IsMarkdownName(filename) ==> r == filename
  {
    if IsMarkdownName(filename) then filename else filename + Extension
  }

  /** Normalising an already normalised name changes nothing. */
  lemma EnsureMarkdownExtensionIdempotent(filename: string)
    ensures EnsureMarkdownExtension(EnsureMarkdownExtension(filename)) == EnsureMarkdownExtension(filename)
  {
  }

  /** A name without the extension and the same name with it denote the same article. */
  lemma EnsureMarkdownExtensionOfSuffixed(filename: string)
    requires !IsMarkdownName(filename)
    ensures EnsureMarkdownExtension(filename + Extension) == EnsureMarkdownExtension(filename)
  {
    assert (filename + Extension)[|filename + Extension| - |Extension|..] == Extension;
  }

  /** The only names two inputs can share after normalisation: a name and itself with `.md` added. */
  lemma EnsureMarkdownExtensionCollisions(a: string, b: string)
    requires EnsureMarkdownExtension(a) == EnsureMarkdownExtension(b)
    ensures a == b || a == b + Extension || b == a + Extension
  {
  }
}
