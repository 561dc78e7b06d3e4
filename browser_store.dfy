/** The browser's article store (services/databaseService.ts): `localStorage`, modelled as a
    map from key to text, where an article lives under the key `ipa_db_` followed by its
    normalised name. A `localStorage` call that throws (a full quota, storage switched off)
    is the parameter `fault`. */
module BrowserStore {
  import opened Wrappers
  import opened Text
  import opened Sorting
  import opened ArticleNames

  const KeyPrefix: string := "ipa_db_"

  /** The longest file-name body `generateFilename` keeps. */
  const MaxFilenameLength: nat := 50

  /** One entry of `searchArticles`' result. */
  datatype SearchHit = SearchHit(filename: string, content: string, matches: nat)

  /** What `loadArticleFromFile` resolves to. */
  datatype LoadedArticle = LoadedArticle(filename: string, content: string)

  // ---------------------------------------------------------------------------------------
  // generateFilename

  predicate IsAsciiAlphanumeric(c: char) {
    ('a' <= c <= 'z') || ('A' <= c <= 'Z') || ('0' <= c <= '9')
  }

  /** The characters `.replace(/[^a-zA-Z0-9\s]/g, '')` keeps. */
  predicate Kept(c: char) {
    IsAsciiAlphanumeric(c) || IsSpace(c)
  }

  /** `.replace(/[^a-zA-Z0-9\s]/g, '')`: keeps letters, digits and white space. */
  function RemoveSpecial(s: string): (r: string)
    ensures forall i :: 0 <= i < |r| ==> Kept(r[i]) && r[i] in s
    ensures |r| <= |s|
  {
    if s == [] then []
    else (if Kept(s[0]) then [s[0]] else []) + RemoveSpecial(s[1..])
  }

  /** Every letter, digit and white-space character is kept as often as it occurs, and every
      other character is dropped. */
  lemma {:induction false} RemoveSpecialCounts(s: string)
    ensures forall c :: multiset(RemoveSpecial(s))[c] == if Kept(c) then multiset(s)[c] else 0
    decreases |s|
  {
    if s != [] {
      RemoveSpecialCounts(s[1..]);
      assert s == [s[0]] + s[1..];
      assert multiset(s) == multiset{s[0]} + multiset(s[1..]);
    }
  }

  /** A text holding only kept characters comes back unchanged. */
  lemma {:induction false} RemoveSpecialOfKept(s: string)
    requires forall i :: 0 <= i < |s| ==> Kept(s[i])
    ensures RemoveSpecial(s) == s
    decreases |s|
  {
    if s != [] {
      RemoveSpecialOfKept(s[1..]);
      assert s == [s[0]] + s[1..];
    }
  }

  /** The replacement works character by character, so it keeps the order of what it keeps:
      the result for two texts joined is the two results joined. */
  lemma {:induction false} RemoveSpecialAppend(a: string, b: string)
    ensures RemoveSpecial(a + b) == RemoveSpecial(a) + RemoveSpecial(b)
    decreases |a|
  {
    if a != [] {
      var head: string := if Kept(a[0]) then [a[0]] else [];
      assert (a + b)[0] == a[0] && (a + b)[1..] == a[1..] + b;
      calc {
        RemoveSpecial(a + b);
        head + RemoveSpecial(a[1..] + b);
        { RemoveSpecialAppend(a[1..], b); }
        head + (RemoveSpecial(a[1..]) + RemoveSpecial(b));
        (head + RemoveSpecial(a[1..])) + RemoveSpecial(b);
        RemoveSpecial(a) + RemoveSpecial(b);
      }
    } else {
      assert a + b == b;
    }
  }

  /** The text after a leading run of white space. */
  function SkipSpace(s: string): (r: string)
    ensures |r| <= |s| && (r == [] || !IsSpace(r[0]))
    ensures forall i :: 0 <= i < |r| ==> r[i] in s
  {
    if s != [] && IsSpace(s[0]) then SkipSpace(s[1..]) else s
  }

  lemma {:induction false} SkipSpaceCounts(s: string)
    ensures forall c :: !IsSpace(c) ==> multiset(SkipSpace(s))[c] == multiset(s)[c]
    decreases |s|
  {
    if s != [] && IsSpace(s[0]) {
      SkipSpaceCounts(s[1..]);
      assert s == [s[0]] + s[1..];
      assert multiset(s) == multiset{s[0]} + multiset(s[1..]);
    }
  }

  /** `.replace(/\s+/g, '_')`: each maximal run of white space becomes one underscore. */
  function CollapseSpace(s: string): (r: string)
    ensures forall i :: 0 <= i < |r| ==> !IsSpace(r[i]) && (r[i] == '_' || r[i] in s)
    decreases |s|
  {
    if s == [] then []
    else if IsSpace(s[0]) then "_" + CollapseSpace(SkipSpace(s[1..]))
    else [s[0]] + CollapseSpace(s[1..])
  }

  /** Every character other than white space and `_` is kept as often as it occurs. */
  lemma {:induction false} CollapseSpaceCounts(s: string)
    ensures forall c :: !IsSpace(c) && c != '_' ==> multiset(CollapseSpace(s))[c] == multiset(s)[c]
    decreases |s|
  {
    if s != [] {
      assert s == [s[0]] + s[1..];
      assert multiset(s) == multiset{s[0]} + multiset(s[1..]);
      if IsSpace(s[0]) {
        SkipSpaceCounts(s[1..]);
        CollapseSpaceCounts(SkipSpace(s[1..]));
      } else {
        CollapseSpaceCounts(s[1..]);
      }
    }
  }

  /** A run of white space followed by a text that does not start with white space becomes one
      underscore in front of that text's result. */
  lemma {:induction false} CollapseSpaceRun(w: string, b: string)
    requires w != [] && AllSpace(w)
    requires b == [] || !IsSpace(b[0])
    ensures CollapseSpace(w + b) == "_" + CollapseSpace(b)
  {
    SkipSpaceOfRun(w[1..], b);
    assert (w + b)[1..] == w[1..] + b;
  }

  lemma {:induction false} SkipSpaceOfRun(w: string, b: string)
    requires AllSpace(w)
    requires b == [] || !IsSpace(b[0])
    ensures SkipSpace(w + b) == b
    decreases |w|
  {
    if w != [] {
      assert (w + b)[1..] == w[1..] + b;
      SkipSpaceOfRun(w[1..], b);
    } else {
      assert w + b == b;
    }
  }

  /** Text without white space passes through in order, in front of whatever follows. */
  lemma {:induction false} CollapseSpaceAppend(a: string, b: string)
    requires forall i :: 0 <= i < |a| ==> !IsSpace(a[i])
    ensures CollapseSpace(a + b) == a + CollapseSpace(b)
    decreases |a|
  {
    if a != [] {
      assert (a + b)[0] == a[0] && (a + b)[1..] == a[1..] + b;
      calc {
        CollapseSpace(a + b);
        [a[0]] + CollapseSpace(a[1..] + b);
        { CollapseSpaceAppend(a[1..], b); }
        [a[0]] + (a[1..] + CollapseSpace(b));
        ([a[0]] + a[1..]) + CollapseSpace(b);
        { assert [a[0]] + a[1..] == a; }
        a + CollapseSpace(b);
      }
    } else {
      assert a + b == b;
    }
  }

  predicate IsFilenameChar(c: char) {
    ('a' <= c <= 'z') || ('0' <= c <= '9') || c == '_'
  }

  /** `generateFilename(title)`: lower case, special characters removed, runs of white space
      turned into `_`, cut to 50 characters, `.md` appended. */
  function GenerateFilename(title: string): (r: string)
  {
    var body := CollapseSpace(RemoveSpecial(ToLower(title)));
    (if |body| <= MaxFilenameLength then body else body[..MaxFilenameLength]) + Extension
  }

  /** What `generateFilename` promises: a `.md` name whose body, at most 50 characters long,
      holds only lower-case letters, digits and underscores, so that normalising it again
      changes nothing. */
  lemma GenerateFilenameShape(title: string)
    ensures IsMarkdownName(GenerateFilename(title))
    ensures EnsureMarkdownExtension(GenerateFilename(title)) == GenerateFilename(title)
    ensures |GenerateFilename(title)| <= MaxFilenameLength + |Extension|
    ensures forall i :: 0 <= i < |GenerateFilename(title)| - |Extension| ==> IsFilenameChar(GenerateFilename(title)[i])
  {
    var lower := ToLower(title);
    var kept := RemoveSpecial(lower);
    var body := CollapseSpace(kept);
    var cut := if |body| <= MaxFilenameLength then body else body[..MaxFilenameLength];
    var r := cut + Extension;
    assert r == GenerateFilename(title);
    assert r[|r| - |Extension|..] == Extension;
    forall i | 0 <= i < |cut|
      ensures IsFilenameChar(cut[i])
    {
      var c := cut[i];
      assert c == body[i];
      if c != '_' {
        assert c in kept && !IsSpace(c);
        var k :| 0 <= k < |kept| && kept[k] == c;
        assert IsAsciiAlphanumeric(c);
        assert c in lower;
        var m :| 0 <= m < |lower| && lower[m] == c;
        assert c == LowerChar(title[m]);
      }
    }
    assert forall i :: 0 <= i < |r| - |Extension| ==> r[i] == cut[i];
  }

  // ---------------------------------------------------------------------------------------
  // The store's effects as functions of the key/value map

  function StorageKey(filename: string): (r: string) {
    KeyPrefix + EnsureMarkdownExtension(filename)
  }

  /** `localStorage.getItem(storageKey)` for an article name. */
  function Lookup(items: map<string, string>, filename: string): (r: Option<string>) {
    var key := StorageKey(filename);
    if key in items then Some(items[key]) else None
  }

  /** The names behind those of `keys` that carry the store's prefix. */
  function Stripped(keys: set<string>): (r: set<string>) {
    set key | key in keys && StartsWith(key, KeyPrefix) :: key[|KeyPrefix|..]
  }

  /** The article names behind the keys that carry the store's prefix. */
  function StoredNames(items: map<string, string>): (r: set<string>) {
    Stripped(items.Keys)
  }

  /** What `listArticles` returns: the stored names, ascending. */
  ghost function Listing(items: map<string, string>): (r: seq<string>)
    ensures Sorted(r)
    ensures multiset(r) == multiset(StoredNames(items))
  {
    SortedSet(StoredNames(items))
  }

  /** The hit one article yields, if any: its text is non-empty and matches the query at
      least once. */
  function HitOf(name: string, items: map<string, string>, term: string): (r: seq<SearchHit>)
    ensures |r| <= 1 && forall h :: h in r ==> h.matches > 0
  {
    match Lookup(items, name)
    case Some(content) =>
      var n := CountMatches(ToLower(content), term);
      if content != "" && n > 0 then [SearchHit(name, content, n)] else []
    case None => []
  }

  /** The hits `searchArticles` collects in its `forEach`, in listing order. */
  function Hits(names: seq<string>, items: map<string, string>, term: string): (r: seq<SearchHit>)
    ensures forall h :: h in r ==> h.matches > 0
  {
    if names == [] then []
    else Hits(names[..|names| - 1], items, term) + HitOf(names[|names| - 1], items, term)
  }

  lemma HitsPrefixStep(names: seq<string>, i: int, items: map<string, string>, term: string)
    requires 0 <= i < |names|
    ensures Hits(names[..i + 1], items, term) == Hits(names[..i], items, term) + HitOf(names[i], items, term)
  {
    var upTo := names[..i + 1];
    assert upTo[..|upTo| - 1] == names[..i] && upTo[|upTo| - 1] == names[i];
  }

  function Matches(h: SearchHit): (r: int) {
    h.matches
  }

  /** A hit is found for exactly the listed names whose stored text is non-empty and contains
      the lower-cased query, with the count of its matches. */
  lemma HitsExactly(names: seq<string>, items: map<string, string>, term: string, h: SearchHit)
    ensures h in Hits(names, items, term) <==>
              && h.filename in names
              && Lookup(items, h.filename) == Some(h.content)
              && h.content != ""
              && h.matches == CountMatches(ToLower(h.content), term)
              && Contains(ToLower(h.content), term)
  {
    HitsQualify(names, items, term, h);
    CountMatchesPositive(ToLower(h.content), term);
  }

  /** What makes `h` the hit of the article it names: the stored text, non-empty, with a
      positive count of matches. */
  predicate Qualifies(h: SearchHit, items: map<string, string>, term: string) {
    && Lookup(items, h.filename) == Some(h.content)
    && h.content != ""
    && h.matches == CountMatches(ToLower(h.content), term)
    && h.matches > 0
  }

  lemma {:induction false} HitsQualify(names: seq<string>, items: map<string, string>, term: string, h: SearchHit)
    ensures h in Hits(names, items, term) <==> h.filename in names && Qualifies(h, items, term)
    decreases |names|
  {
    if names != [] {
      var init := names[..|names| - 1];
      var last := names[|names| - 1];
      assert Hits(names, items, term) == Hits(init, items, term) + HitOf(last, items, term);
      InConcat(h, Hits(init, items, term), HitOf(last, items, term));
      InInitOrLast(h.filename, names);
      HitsQualify(init, items, term, h);
      HitOfExactly(last, items, term, h);
    }
  }

  lemma InInitOrLast<T>(x: T, s: seq<T>)
    requires s != []
    ensures x in s <==> x in s[..|s| - 1] || x == s[|s| - 1]
  {
    assert s == s[..|s| - 1] + [s[|s| - 1]];
  }

  lemma InConcat<T>(x: T, a: seq<T>, b: seq<T>)
    ensures x in a + b <==> x in a || x in b
  {
  }

  /** The hit of one article, if any, carries its name, its text and its count of matches. */
  lemma HitOfExactly(name: string, items: map<string, string>, term: string, h: SearchHit)
    ensures h in HitOf(name, items, term) <==> h.filename == name && Qualifies(h, items, term)
  {
  }

  // ---------------------------------------------------------------------------------------
  // Properties of the store

  /** After a save, reading the same name, or the name with `.md` added when it had none,
      gives the saved text; other articles keep theirs. */
  lemma SaveThenGet(items: map<string, string>, filename: string, content: string, other: string)
    ensures Lookup(items[StorageKey(filename) := content], filename) == Some(content)
    ensures !IsMarkdownName(filename) ==> Lookup(items[StorageKey(filename) := content], filename + Extension) == Some(content)
    ensures StorageKey(other) != StorageKey(filename) ==> Lookup(items[StorageKey(filename) := content], other) == Lookup(items, other)
  {
    if !IsMarkdownName(filename) {
      EnsureMarkdownExtensionOfSuffixed(filename);
    }
  }

  /** Two names share a storage key exactly when they normalise to the same article name. */
  lemma StorageKeyInjective(a: string, b: string)
    ensures StorageKey(a) == StorageKey(b) <==> EnsureMarkdownExtension(a) == EnsureMarkdownExtension(b)
  {
    if StorageKey(a) == StorageKey(b) {
      assert StorageKey(a)[|KeyPrefix|..] == EnsureMarkdownExtension(a);
      assert StorageKey(b)[|KeyPrefix|..] == EnsureMarkdownExtension(b);
    }
  }

  /** A key with the prefix is the prefix followed by the name listed for it. */
  lemma PrefixSplit(key: string)
    requires StartsWith(key, KeyPrefix)
    ensures key == KeyPrefix + key[|KeyPrefix|..]
  {
    assert key == key[..|KeyPrefix|] + key[|KeyPrefix|..];
  }

  /** Every saved article is listed under its normalised name; deleting it unlists it. */
  lemma ListedAfterSaveAndDelete(items: map<string, string>, filename: string, content: string)
    ensures EnsureMarkdownExtension(filename) in StoredNames(items[StorageKey(filename) := content])
    ensures EnsureMarkdownExtension(filename) !in StoredNames(items - {StorageKey(filename)})
  {
    var key := StorageKey(filename);
    var name := EnsureMarkdownExtension(filename);
    assert StartsWith(key, KeyPrefix) && key[|KeyPrefix|..] == name;
    var after := items - {key};
    if name in StoredNames(after) {
      var k :| k in after && StartsWith(k, KeyPrefix) && k[|KeyPrefix|..] == name;
      PrefixSplit(k);
      assert false;
    }
  }

  /** `loadArticleFromFile(file)`: a file whose name does not end in `.md` is rejected with
      "Only .md files are supported" before it is read; otherwise its name and the text the
      reader delivers (`None` when the reader fails). */
  function LoadArticleFromFile(name: string, read: Option<string>): (r: Result<LoadedArticle, string>)
    ensures !IsMarkdownName(name) ==> r == Failure("Only .md files are supported")
    ensures r.Success? ==> IsMarkdownName(r.value.filename) && r.value.filename == name && read == Some(r.value.content)
    ensures IsMarkdownName(name) && read.None? ==> r == Failure("Error reading file")
  {
    if !IsMarkdownName(name) then Failure("Only .md files are supported")
    else match read
      case None => Failure("Error reading file")
      case Some(content) => Success(LoadedArticle(name, content))
  }

  // ---------------------------------------------------------------------------------------
  // localStorage and the exported operations

  class ArticleStorage {
    var items: map<string, string>

    constructor(existing: map<string, string>)
      ensures items == existing
    {
      items := existing;
    }

    /** `saveArticle(filename, content)`, storage part: sets the article's key and resolves to
        true; resolves to false, storing nothing, when `localStorage` throws. */
    method SaveArticle(filename: string, content: string, fault: bool) returns (ok: bool)
      modifies this
      ensures ok == !fault
      ensures ok ==> items == old(items)[StorageKey(filename) := content]
      ensures !ok ==> items == old(items)
    {
      if fault {
        return false;
      }
      var fullFilename := EnsureMarkdownExtension(filename);
      items := items[KeyPrefix + fullFilename := content];
      ok := true;
    }

    /** `updateArticle(filename, content)`: the same effect and result as `saveArticle`. */
    method UpdateArticle(filename: string, content: string, fault: bool) returns (ok: bool)
      modifies this
      ensures ok == !fault
      ensures ok ==> items == old(items)[StorageKey(filename) := content]
      ensures !ok ==> items == old(items)
    {
      ok := SaveArticle(filename, content, fault);
    }

    /** `getArticle(filename)`: the stored text, or `None` (`null`) when the key is absent or
        `localStorage` throws. */
    method GetArticle(filename: string, fault: bool) returns (r: Option<string>)
      ensures r == if fault then None else Lookup(items, filename)
    {
      if fault {
        return None;
      }
      var key := KeyPrefix + EnsureMarkdownExtension(filename);
      r := if key in items then Some(items[key]) else None;
    }

    /** `deleteArticle(filename)`: removes the key, whether or not it was there, and returns
        true; false with no change when `localStorage` throws. */
    method DeleteArticle(filename: string, fault: bool) returns (ok: bool)
      modifies this
      ensures ok == !fault
      ensures ok ==> items == old(items) - {StorageKey(filename)} && Lookup(items, filename) == None
      ensures !ok ==> items == old(items)
    {
      if fault {
        return false;
      }
      items := items - {KeyPrefix + EnsureMarkdownExtension(filename)};
      ok := true;
    }

    /** `listArticles()`: walks the keys in whatever order `localStorage.key(i)` gives them,
        keeps those that start with `ipa_db_`, strips the prefix, and sorts. Other keys are
        ignored; the result is the same whatever the key order. */
    method ListArticles() returns (articles: seq<string>)
      ensures articles == Listing(items)
      ensures Distinct(articles)
    {
      var found := CollectNames();
      articles := SortStrings(found);
      SortedPermutationUnique(articles, Listing(items));
      DistinctOfSet(articles, StoredNames(items));
    }

    /** The loop of `listArticles`: the stripped names of the prefixed keys, each once, in the
        order the keys are visited. */
    method CollectNames() returns (found: seq<string>)
      ensures multiset(found) == multiset(StoredNames(items))
    {
      found := [];
      var rest := items.Keys;
      while rest != {}
        invariant rest <= items.Keys
        invariant multiset(found) == multiset(Stripped(items.Keys) - Stripped(rest))
        decreases |rest|
      {
        var key :| key in rest;
        StrippedStep(items.Keys, rest, key, found);
        if StartsWith(key, KeyPrefix) {
          found := found + [key[7..]];
        }
        rest := rest - {key};
      }
      assert Stripped(rest) == {};
    }

    /** The `forEach` of `searchArticles`: reads each listed article and keeps a hit for those
        whose non-empty text matches the query, in listing order. */
    method CollectHits(articles: seq<string>, searchTerm: string) returns (found: seq<SearchHit>)
      ensures found == Hits(articles, items, searchTerm)
    {
      found := [];
      var i := 0;
      while i < |articles|
        invariant 0 <= i <= |articles|
        invariant found == Hits(articles[..i], items, searchTerm)
      {
        var filename := articles[i];
        var content := GetArticle(filename, false);
        var hit: seq<SearchHit> := [];
        if content.Some? && content.value != "" {
          var contentLower := ToLower(content.value);
          var matches := CountMatches(contentLower, searchTerm);
          if matches > 0 {
            hit := [SearchHit(filename, content.value, matches)];
          }
        }
        assert hit == HitOf(filename, items, searchTerm);
        HitsPrefixStep(articles, i, items, searchTerm);
        found := found + hit;
        i := i + 1;
      }
      assert articles[..i] == articles;
    }

    /** `searchArticles(query)`: the listed articles whose non-empty text, lower-cased, matches
        the lower-cased query at least once, with their match counts, most matches first. */
    method SearchArticles(query: string) returns (results: seq<SearchHit>)
      ensures forall h :: h in results ==> h.matches > 0
      ensures SortedDescBy(results, Matches)
      ensures multiset(results) == multiset(Hits(Listing(items), items, ToLower(query)))
      ensures results == SortDescBy(Hits(Listing(items), items, ToLower(query)), Matches)
    {
      var articles := ListArticles();
      var found := CollectHits(articles, ToLower(query));
      results := SortDescBy(found, Matches);
      forall h | h in results
        ensures h.matches > 0
      {
        assert h in multiset(found);
      }
    }
  }

  /** Removing one prefixed key from the keys still to be visited removes exactly its name. */
  lemma StrippedNamesStep(rest: set<string>, key: string)
    requires key in rest && StartsWith(key, KeyPrefix)
    ensures Stripped(rest) == Stripped(rest - {key}) + {key[|KeyPrefix|..]}
    ensures key[|KeyPrefix|..] !in Stripped(rest - {key})
  {
    var name := key[|KeyPrefix|..];
    if name in Stripped(rest - {key}) {
      var k :| k in rest - {key} && StartsWith(k, KeyPrefix) && k[|KeyPrefix|..] == name;
      PrefixSplit(k);
      PrefixSplit(key);
      assert false;
    }
  }

  /** One step of the walk over the keys in `listArticles`: visiting `key` adds its name, when it
      has one, to the names found so far. */
  lemma StrippedStep(all: set<string>, rest: set<string>, key: string, found: seq<string>)
    requires rest <= all && key in rest
    requires multiset(found) == multiset(Stripped(all) - Stripped(rest))
    ensures StartsWith(key, KeyPrefix) ==> multiset(found + [key[|KeyPrefix|..]]) == multiset(Stripped(all) - Stripped(rest - {key}))
    ensures !StartsWith(key, KeyPrefix) ==> multiset(found) == multiset(Stripped(all) - Stripped(rest - {key}))
  {
    var later := rest - {key};
    if StartsWith(key, KeyPrefix) {
      var name := key[|KeyPrefix|..];
      StrippedNamesStep(rest, key);
      assert name in Stripped(all);
      var done := Stripped(all) - Stripped(rest);
      assert name !in done;
      assert Stripped(all) - Stripped(later) == done + {name};
      assert multiset(done + {name}) == multiset(done) + multiset{name};
    } else {
      assert Stripped(rest) == Stripped(later);
    }
  }

  /** A name is listed exactly when the store holds the prefix followed by that name. */
  lemma ListingMembership(items: map<string, string>, name: string)
    ensures name in Listing(items) <==> KeyPrefix + name in items
  {
    assert name in Listing(items) <==> name in multiset(StoredNames(items));
    if name in StoredNames(items) {
      var k :| k in items && StartsWith(k, KeyPrefix) && k[|KeyPrefix|..] == name;
      PrefixSplit(k);
    }
    if KeyPrefix + name in items {
      var k := KeyPrefix + name;
      assert StartsWith(k, KeyPrefix) && k[|KeyPrefix|..] == name;
    }
  }
}
