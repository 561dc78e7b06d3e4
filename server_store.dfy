/** The server's article store (server-ubuntu/services/databaseService.js): the directory
    `./databases`, modelled as a map from file name to file. A failing file-system call is
    the parameter `fault` (`Some(message)` when the call throws with that message); the
    modification time a write gives a file is the parameter `now`. */
module ServerStore {
  import opened Wrappers
  import opened Text
  import opened Sorting
  import opened ArticleNames

  const DatabaseDir: string := "databases"

  /** A file of the directory: its text and its modification time. Its size in bytes is kept
      abstract as the length of its text. */
  datatype FileEntry = FileEntry(content: string, modified: int)

  /** What `deleteArticle` resolves to: `{success: true}` or `{success: false, error}`. */
  datatype DeleteResult = DeleteResult(success: bool, error: Option<string>)

  /** One entry of `getArticleStats().articles`. */
  datatype ArticleStat = ArticleStat(filename: string, size: nat, lines: nat, modified: int)

  datatype ArticleStats = ArticleStats(totalArticles: nat, totalSize: nat, articles: seq<ArticleStat>)

  /** The path `path.join(DATABASE_DIR, name)` of a stored article. */
  function FilePath(name: string): (r: string) {
    DatabaseDir + "/" + name
  }

  // ---------------------------------------------------------------------------------------
  // The store's effects as functions of the directory

  /** The directory after `filename` is written with `content` at time `now`. */
  function Saved(files: map<string, FileEntry>, filename: string, content: string, now: int): (r: map<string, FileEntry>) {
    files[EnsureMarkdownExtension(filename) := FileEntry(content, now)]
  }

  /** The directory after the file of `filename` is removed. */
  function Removed(files: map<string, FileEntry>, filename: string): (r: map<string, FileEntry>) {
    files - {EnsureMarkdownExtension(filename)}
  }

  /** The text `getArticle(filename)` reads, or `None` for `null`. */
  function Lookup(files: map<string, FileEntry>, filename: string): (r: Option<string>) {
    var name := EnsureMarkdownExtension(filename);
    if name in files then Some(files[name].content) else None
  }

  /** The names in the directory that end in `.md`. */
  function MarkdownNames(files: map<string, FileEntry>): (r: set<string>) {
    set name | name in files && IsMarkdownName(name)
  }

  /** What `listArticles` resolves to: the `.md` names, ascending. */
  ghost function Listing(files: map<string, FileEntry>): (r: seq<string>)
    ensures Sorted(r) && Distinct(r)
    ensures forall name :: name in r <==> name in files && IsMarkdownName(name)
  {
    var r := SortedSet(MarkdownNames(files));
    DistinctOfSet(r, MarkdownNames(files));
    assert forall name :: name in r <==> name in multiset(r);
    r
  }

  /** `files.filter(file => file.endsWith('.md'))`. */
  function FilterMarkdown(names: seq<string>): (r: seq<string>)
    ensures forall name :: multiset(r)[name] == if IsMarkdownName(name) then multiset(names)[name] else 0
  {
    if names == [] then []
    else
      assert names == [names[0]] + names[1..];
      (if IsMarkdownName(names[0]) then [names[0]] else []) + FilterMarkdown(names[1..])
  }

  /** The statistics entry of one file: its size, `content.split('\n').length` and its time. */
  function StatOf(name: string, entry: FileEntry): (a: ArticleStat)
    ensures a.lines == Count(entry.content, '\n') + 1
  {
    ArticleStat(name, |entry.content|, |Split(entry.content, '\n')|, entry.modified)
  }

  function Modified(a: ArticleStat): (r: int) {
    a.modified
  }

  function TotalSize(articles: seq<ArticleStat>): (r: nat) {
    if articles == [] then 0 else articles[0].size + TotalSize(articles[1..])
  }

  function Names(articles: seq<ArticleStat>): (r: seq<string>) {
    seq(|articles|, i requires 0 <= i < |articles| => articles[i].filename)
  }

  // ---------------------------------------------------------------------------------------
  // Properties of the store

  /** After a save, reading the same name, or the name with `.md` added when it had none,
      gives the saved text; the save leaves every other article as it was. */
  lemma SaveThenGet(files: map<string, FileEntry>, filename: string, content: string, now: int, other: string)
    ensures Lookup(Saved(files, filename, content, now), filename) == Some(content)
    ensures !IsMarkdownName(filename) ==> Lookup(Saved(files, filename, content, now), filename + Extension) == Some(content)
    ensures EnsureMarkdownExtension(other) != EnsureMarkdownExtension(filename) ==>
              Lookup(Saved(files, filename, content, now), other) == Lookup(files, other)
  {
    if !IsMarkdownName(filename) {
      EnsureMarkdownExtensionOfSuffixed(filename);
    }
  }

  /** A second save to the same name replaces the first: the last write wins, and the name is
      listed once. */
  lemma SaveOverwrites(files: map<string, FileEntry>, filename: string, c1: string, t1: int, c2: string, t2: int)
    ensures Saved(Saved(files, filename, c1, t1), filename, c2, t2) == Saved(files, filename, c2, t2)
    ensures Lookup(Saved(Saved(files, filename, c1, t1), filename, c2, t2), filename) == Some(c2)
    ensures multiset(Listing(Saved(Saved(files, filename, c1, t1), filename, c2, t2)))[EnsureMarkdownExtension(filename)] == 1
  {
    var once := Saved(files, filename, c2, t2);
    assert Saved(Saved(files, filename, c1, t1), filename, c2, t2) == once;
    var name := EnsureMarkdownExtension(filename);
    assert name in once && IsMarkdownName(name);
    var r := Listing(once);
    assert name in r;
    DistinctCount(r, name);
  }

  lemma DistinctCount<T>(s: seq<T>, x: T)
    requires Distinct(s) && x in s
    ensures multiset(s)[x] == 1
    decreases |s|
  {
    assert s == [s[0]] + s[1..];
    if s[0] == x {
      assert x !in s[1..];
    } else {
      DistinctCount(s[1..], x);
    }
  }

  /** After a delete the name reads as missing, and every other article is left as it was. */
  lemma DeleteThenGet(files: map<string, FileEntry>, filename: string, other: string)
    ensures Lookup(Removed(files, filename), filename) == None
    ensures EnsureMarkdownExtension(other) != EnsureMarkdownExtension(filename) ==>
              Lookup(Removed(files, filename), other) == Lookup(files, other)
  {
  }

  /** Saving and deleting only ever touch `.md` names, so the set of other files in the
      directory never changes. */
  lemma WritesTouchOnlyMarkdown(files: map<string, FileEntry>, filename: string, content: string, now: int, name: string)
    requires !IsMarkdownName(name)
    ensures (name in Saved(files, filename, content, now)) == (name in files)
    ensures (name in Removed(files, filename)) == (name in files)
  {
  }

  /** Sizes add up the same in any order. */
  lemma {:induction false} TotalSizePermutation(a: seq<ArticleStat>, b: seq<ArticleStat>)
    requires multiset(a) == multiset(b)
    ensures TotalSize(a) == TotalSize(b)
    decreases |a|
  {
    if a != [] {
      assert a[0] in multiset(b);
      var k :| 0 <= k < |b| && b[k] == a[0];
      var b' := b[..k] + b[k + 1..];
      TotalSizeRemoveAt(b, k);
      TailMultiset(a);
      RemoveAtMultiset(b, k);
      TotalSizePermutation(a[1..], b');
    } else {
      assert b == [];
    }
  }

  lemma TotalSizeRemoveAt(b: seq<ArticleStat>, k: int)
    requires 0 <= k < |b|
    ensures TotalSize(b) == b[k].size + TotalSize(b[..k] + b[k + 1..])
  {
    assert b == b[..k] + b[k..];
    TotalSizeAppend(b[..k], b[k..]);
    assert b[k..][1..] == b[k + 1..];
    TotalSizeAppend(b[..k], b[k + 1..]);
  }

  lemma {:induction false} TotalSizeAppend(a: seq<ArticleStat>, b: seq<ArticleStat>)
    ensures TotalSize(a + b) == TotalSize(a) + TotalSize(b)
    decreases |a|
  {
    if a == [] {
      assert a + b == b;
    } else {
      assert (a + b)[1..] == a[1..] + b;
      TotalSizeAppend(a[1..], b);
    }
  }

  lemma MarkdownOfListing(listing: seq<string>, files: map<string, FileEntry>)
    requires multiset(listing) == multiset(files.Keys)
    ensures multiset(FilterMarkdown(listing)) == multiset(MarkdownNames(files))
  {
    var md := FilterMarkdown(listing);
    forall name
      ensures multiset(md)[name] == multiset(MarkdownNames(files))[name]
    {
    }
  }

  // ---------------------------------------------------------------------------------------
  // The directory and the exported operations

  class ArticleDirectory {
    var files: map<string, FileEntry>

    /** Every file in the directory has a `.md` name; it holds when the directory starts out
        empty, and every write keeps it. */
    ghost predicate OnlyMarkdown()
      reads this
    {
      forall name :: name in files ==> IsMarkdownName(name)
    }

    constructor(existing: map<string, FileEntry>)
      ensures files == existing
    {
      files := existing;
    }

    /** `saveArticle(filename, content)`: writes the file, overwriting it, and resolves to
        `{success: true, filePath}`; a failing write rejects with "Failed to save article: …". */
    method SaveArticle(filename: string, content: string, now: int, fault: Option<string>)
      returns (r: Result<string, string>)
      modifies this
      ensures fault.None? ==> r == Success(FilePath(EnsureMarkdownExtension(filename)))
      ensures fault.None? ==> files == Saved(old(files), filename, content, now)
      ensures fault.Some? ==> r == Failure("Failed to save article: " + fault.value) && files == old(files)
      ensures old(OnlyMarkdown()) ==> OnlyMarkdown()
    {
      if fault.Some? {
        return Failure("Failed to save article: " + fault.value);
      }
      var name := EnsureMarkdownExtension(filename);
      files := files[name := FileEntry(content, now)];
      r := Success(FilePath(name));
    }

    /** `updateArticle(filename, content)`: the same write as `saveArticle`, with its own
        failure message. */
    method UpdateArticle(filename: string, content: string, now: int, fault: Option<string>)
      returns (r: Result<string, string>)
      modifies this
      ensures fault.None? ==> r == Success(FilePath(EnsureMarkdownExtension(filename)))
      ensures fault.None? ==> files == Saved(old(files), filename, content, now)
      ensures fault.Some? ==> r == Failure("Failed to update article: " + fault.value) && files == old(files)
      ensures old(OnlyMarkdown()) ==> OnlyMarkdown()
    {
      if fault.Some? {
        return Failure("Failed to update article: " + fault.value);
      }
      var name := EnsureMarkdownExtension(filename);
      files := files[name := FileEntry(content, now)];
      r := Success(FilePath(name));
    }

    /** `getArticle(filename)`: the text of the article, or `None` (`null`) when there is no
        such file or reading fails. */
    method GetArticle(filename: string, fault: Option<string>) returns (r: Option<string>)
      ensures fault.Some? ==> r == None
      ensures fault.None? ==> r == Lookup(files, filename)
    {
      if fault.Some? {
        return None;
      }
      var name := EnsureMarkdownExtension(filename);
      if name !in files {
        return None;
      }
      r := Some(files[name].content);
    }

    /** `deleteArticle(filename)`: `{success: false, error: 'Article not found'}` and no change
        when there is no such file; otherwise removes exactly that file and resolves to
        `{success: true}`. A failing file-system call rejects. */
    method DeleteArticle(filename: string, fault: Option<string>) returns (r: Result<DeleteResult, string>)
      modifies this
      ensures fault.Some? ==> r == Failure("Failed to delete article: " + fault.value) && files == old(files)
      ensures fault.None? && EnsureMarkdownExtension(filename) !in old(files) ==>
                r == Success(DeleteResult(false, Some("Article not found"))) && files == old(files)
      ensures fault.None? && EnsureMarkdownExtension(filename) in old(files) ==>
                r == Success(DeleteResult(true, None)) && files == Removed(old(files), filename)
      ensures old(OnlyMarkdown()) ==> OnlyMarkdown()
    {
      if fault.Some? {
        return Failure("Failed to delete article: " + fault.value);
      }
      var name := EnsureMarkdownExtension(filename);
      if name !in files {
        return Success(DeleteResult(false, Some("Article not found")));
      }
      files := files - {name};
      r := Success(DeleteResult(true, None));
    }

    /** `fs.readdir`: the names in the directory, each once, in an order the file system picks. */
    method ReadDir() returns (listing: seq<string>)
      ensures multiset(listing) == multiset(files.Keys)
    {
      listing := [];
      var rest := files.Keys;
      while rest != {}
        invariant rest <= files.Keys
        invariant multiset(listing) + multiset(rest) == multiset(files.Keys)
        decreases |rest|
      {
        var name :| name in rest;
        assert multiset(rest) == multiset(rest - {name}) + multiset{name};
        listing := listing + [name];
        rest := rest - {name};
      }
    }

    /** `listArticles()`: the `.md` names, each once, ascending, whatever order the directory
        gives them in; `[]` when reading the directory fails. */
    method ListArticles(fault: Option<string>) returns (names: seq<string>)
      ensures fault.Some? ==> names == []
      ensures fault.None? ==> names == Listing(files)
    {
      if fault.Some? {
        return [];
      }
      var listing := ReadDir();
      names := SortStrings(FilterMarkdown(listing));
      MarkdownOfListing(listing, files);
      SortedPermutationUnique(names, Listing(files));
    }

    /** `getArticleStats()`: how many `.md` files there are, their total size, and one entry per
        file sorted by modification time, newest first; all zero when the directory cannot be read. */
    method GetArticleStats(fault: Option<string>) returns (stats: ArticleStats)
      ensures fault.Some? ==> stats == ArticleStats(0, 0, [])
      ensures fault.None? ==> stats.totalArticles == |stats.articles| == |MarkdownNames(files)|
      ensures fault.None? ==> stats.totalSize == TotalSize(stats.articles)
      ensures fault.None? ==> SortedDescBy(stats.articles, Modified)
      ensures fault.None? ==> forall a :: a in stats.articles ==>
                a.filename in MarkdownNames(files) && a == StatOf(a.filename, files[a.filename])
      ensures fault.None? ==> forall name :: name in MarkdownNames(files) ==> name in Names(stats.articles)
    {
      if fault.Some? {
        return ArticleStats(0, 0, []);
      }
      var listing := ReadDir();
      var md := FilterMarkdown(listing);
      MarkdownOfListing(listing, files);
      var articles, totalSize := StatEntries(md);
      var sorted := SortDescBy(articles, Modified);
      TotalSizePermutation(articles, sorted);
      stats := ArticleStats(|md|, totalSize, sorted);
      StatsOfListing(md, articles, sorted, files);
    }

    /** The loop of `getArticleStats`: one entry per listed `.md` file, in listing order, and
        the running total of their sizes. */
    method StatEntries(md: seq<string>) returns (articles: seq<ArticleStat>, totalSize: nat)
      requires multiset(md) == multiset(MarkdownNames(files))
      ensures |articles| == |md|
      ensures forall j :: 0 <= j < |md| ==> md[j] in files && articles[j] == StatOf(md[j], files[md[j]])
      ensures totalSize == TotalSize(articles)
    {
      totalSize := 0;
      articles := [];
      var i := 0;
      while i < |md|
        invariant 0 <= i <= |md|
        invariant |articles| == i
        invariant forall j :: 0 <= j < i ==> md[j] in files && articles[j] == StatOf(md[j], files[md[j]])
        invariant totalSize == TotalSize(articles)
      {
        assert md[i] in multiset(MarkdownNames(files));
        var stat := StatOf(md[i], files[md[i]]);
        TotalSizeAppend(articles, [stat]);
        articles := articles + [stat];
        totalSize := totalSize + stat.size;
        i := i + 1;
      }
    }
  }

  /** What the loop of `getArticleStats` collects, reordered, still has one entry per `.md` file. */
  lemma StatsOfListing(md: seq<string>, articles: seq<ArticleStat>, sorted: seq<ArticleStat>, files: map<string, FileEntry>)
    requires multiset(md) == multiset(MarkdownNames(files))
    requires |articles| == |md|
    requires forall j :: 0 <= j < |md| ==> md[j] in files && articles[j] == StatOf(md[j], files[md[j]])
    requires multiset(sorted) == multiset(articles)
    ensures |md| == |sorted| == |MarkdownNames(files)|
    ensures forall a :: a in sorted ==> a.filename in MarkdownNames(files) && a == StatOf(a.filename, files[a.filename])
    ensures forall name :: name in MarkdownNames(files) ==> name in Names(sorted)
  {
    assert |md| == |multiset(md)| == |multiset(MarkdownNames(files))| == |MarkdownNames(files)|;
    assert |sorted| == |multiset(sorted)| == |multiset(articles)| == |articles|;
    forall a | a in sorted
      ensures a.filename in MarkdownNames(files) && a == StatOf(a.filename, files[a.filename])
    {
      assert a in multiset(articles);
      var j :| 0 <= j < |articles| && articles[j] == a;
      assert md[j] in multiset(MarkdownNames(files));
    }
    forall name | name in MarkdownNames(files)
      ensures name in Names(sorted)
    {
      assert name in multiset(md);
      var j :| 0 <= j < |md| && md[j] == name;
      assert articles[j] in multiset(sorted);
      var m :| 0 <= m < |sorted| && sorted[m] == articles[j];
      assert Names(sorted)[m] == name;
    }
  }
}
