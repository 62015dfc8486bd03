/**
 * The cache of pre-recorded workflow results: the file-name-safe form of a query,
 * the cache key `<workflow>/<safe>.json`, the conversion of a cached file's name back
 * into a query, and the preset queries offered per workflow. Reading and writing the
 * JSON files is not modelled; a cache directory is the list of its entry names.
 */
module CacheManager {
  import opened Wrappers
  import opened Text

  /** The character `query.lower().replace(' ', '_').replace('-', '_')` puts in place of `c`. */
  function SafeChar(c: char): char {
    var l := ToLowerChar(c);
    if l == ' ' || l == '-' then '_' else l
  }

  /** `query.lower().replace(' ', '_').replace('-', '_')`. */
  function Safe(query: string): string {
    ReplaceAll(ReplaceAll(Lower(query), " ", "_"), "-", "_")
  }

  /** `get_cache_key`. */
  function CacheKey(workflowName: string, query: string): string {
    workflowName + "/" + Safe(query) + ".json"
  }

  /** The normalisation works character by character. */
  lemma SafeAt(query: string)
    ensures |Safe(query)| == |query|
    ensures forall i :: 0 <= i < |query| ==> Safe(query)[i] == SafeChar(query[i])
  {
    var lowered := Lower(query);
    ReplaceChar(lowered, ' ', '_');
    ReplaceChar(ReplaceAll(lowered, " ", "_"), '-', '_');
  }

  /** A safe query has no space, no dash and no ASCII uppercase letter. */
  predicate IsSafe(s: string) {
    forall i :: 0 <= i < |s| ==> s[i] != ' ' && s[i] != '-' && !IsUpper(s[i])
  }

  lemma SafeIsSafe(query: string)
    ensures IsSafe(Safe(query))
  {
    SafeAt(query);
  }

  /** An already-safe query is its own normal form; in particular normalising twice is normalising once. */
  lemma SafeFixed(s: string)
    requires IsSafe(s)
    ensures Safe(s) == s
  {
    SafeAt(s);
  }

  lemma SafeIdempotent(query: string)
    ensures Safe(Safe(query)) == Safe(query)
  {
    SafeIsSafe(query);
    SafeFixed(Safe(query));
  }

  /** Two characters that differ at most in case, or are among `' '`, `'-'` and `'_'`. */
  predicate Alike(a: char, b: char) {
    SafeChar(a) == SafeChar(b)
  }

  /**
   * Two queries share a cache key exactly when they have the same length and agree
   * position by position up to letter case and the interchange of `' '`, `'-'` and `'_'`.
   */
  lemma SameKey(workflowName: string, a: string, b: string)
    ensures CacheKey(workflowName, a) == CacheKey(workflowName, b) <==>
            |a| == |b| && forall i :: 0 <= i < |a| ==> Alike(a[i], b[i])
  {
    SafeAt(a);
    SafeAt(b);
    var p := workflowName + "/";
    if CacheKey(workflowName, a) == CacheKey(workflowName, b) {
      var ka, kb := CacheKey(workflowName, a), CacheKey(workflowName, b);
      assert Safe(a) == ka[|p|..|ka| - 5];
      assert Safe(b) == kb[|p|..|kb| - 5];
    }
    if |a| == |b| && forall i :: 0 <= i < |a| ==> Alike(a[i], b[i]) {
      assert Safe(a) == Safe(b);
    }
  }

  /** `PurePath(name).stem`: the name without its last suffix, where a suffix needs a dot that is neither first nor last. */
  function Stem(name: string): (r: string)
    ensures r <= name
  {
    var dot := RFind(name, ".");
    if dot.Some? && 0 < dot.value < |name| - 1 then name[..dot.value] else name
  }

  /** The query a cached file's name stands for: `f.stem.replace('_', ' ')`. */
  function QueryOfName(name: string): string {
    ReplaceAll(Stem(name), "_", " ")
  }

  /** Whether `glob('*.json')` picks the name up. */
  predicate IsJsonName(name: string) {
    EndsWith(name, ".json")
  }

  /** The entries `glob('*.json')` yields, in listing order. */
  function JsonNames(names: seq<string>): (r: seq<string>)
    ensures |r| <= |names|
  {
    if names == [] then []
    else
      var init := JsonNames(names[..|names| - 1]);
      var last := names[|names| - 1];
      if IsJsonName(last) then init + [last] else init
  }

  /** The queries of a directory listing: the query of each `*.json` entry, in listing order. */
  function CachedQueries(names: seq<string>): (r: seq<string>)
    ensures |r| == |JsonNames(names)|
  {
    var json := JsonNames(names);
    seq(|json|, k requires 0 <= k < |json| => QueryOfName(json[k]))
  }

  lemma CachedQueriesSnoc(names: seq<string>, i: nat)
    requires i < |names|
    ensures CachedQueries(names[..i + 1]) ==
            CachedQueries(names[..i]) + (if IsJsonName(names[i]) then [QueryOfName(names[i])] else [])
  {
    assert names[..i + 1][..i] == names[..i];
  }

  /**
   * `list_cached_queries`: nothing when the workflow's directory is missing, else the
   * query of each `*.json` entry in listing order.
   */
  method ListCachedQueries(dirExists: bool, names: seq<string>) returns (queries: seq<string>)
    ensures !dirExists ==> queries == []
    ensures dirExists ==> queries == CachedQueries(names)
  {
    if !dirExists {
      return [];
    }
    queries := [];
    for i := 0 to |names|
      invariant queries == CachedQueries(names[..i])
    {
      CachedQueriesSnoc(names, i);
      if IsJsonName(names[i]) {
        queries := queries + [QueryOfName(names[i])];
      }
    }
    assert names[..|names|] == names;
  }

  /** The listing keeps exactly the `*.json` entries. */
  lemma {:induction false} JsonNamesOf(names: seq<string>, name: string)
    ensures name in JsonNames(names) <==> name in names && IsJsonName(name)
  {
    if names != [] {
      var init := names[..|names| - 1];
      JsonNamesOf(init, name);
      assert names == init + [names[|names| - 1]];
    }
  }

  /** A query the round trip through the file name preserves: non-empty, lowercase, without `'_'`, `'-'` or `'/'`. */
  predicate Recoverable(q: string) {
    && |q| > 0
    && forall i :: 0 <= i < |q| ==> q[i] != '_' && q[i] != '-' && q[i] != '/' && !IsUpper(q[i])
  }

  /** The stem of `<base>.json` is `base` when `base` is non-empty. */
  lemma StemOfJson(base: string)
    requires |base| > 0
    ensures Stem(base + ".json") == base
  {
    var name := base + ".json";
    assert name[|base|..] == ".json";
    assert OccursAt(name, ".", |base|);
    forall j: nat | |base| < j ensures !OccursAt(name, ".", j) {
      if j + 1 <= |name| {
        assert name[j..j + 1][0] == name[j];
      }
    }
    assert RFind(name, ".") == Some(|base|);
  }

  /**
   * A recoverable query is listed back from the file its result is saved to: the key is
   * the workflow's directory followed by that file's name, and the name's query is `q`.
   */
  lemma RoundTrip(workflowName: string, q: string)
    requires Recoverable(q)
    ensures var name := Safe(q) + ".json";
            && CacheKey(workflowName, q) == workflowName + "/" + name
            && '/' !in name && IsJsonName(name)
            && QueryOfName(name) == q
  {
    var safe := Safe(q);
    var name := safe + ".json";
    SafeAt(q);
    assert forall i :: 0 <= i < |q| ==> safe[i] == if q[i] == ' ' then '_' else q[i];
    assert name[|safe|..] == ".json";
    StemOfJson(safe);
    ReplaceChar(safe, '_', ' ');
  }

  /** `get_preset_queries`: the listed presets of a known workflow, and nothing for any other name. */
  function PresetQueries(workflowName: string): (r: seq<string>)
    ensures r == [] <==> workflowName !in {"arxiv_search", "wiki_summary", "error_recovery"}
    ensures workflowName == "arxiv_search" ==> r == ["transformer", "reinforcement learning", "LLM agents"]
    ensures workflowName == "wiki_summary" ==> r == ["generative AI", "neural networks", "Alan Turing"]
    ensures workflowName == "error_recovery" ==> r == ["normal run", "simulate failure"]
  {
    match workflowName
    case "arxiv_search" => ["transformer", "reinforcement learning", "LLM agents"]
    case "wiki_summary" => ["generative AI", "neural networks", "Alan Turing"]
    case "error_recovery" => ["normal run", "simulate failure"]
    case _ => []
  }
}
