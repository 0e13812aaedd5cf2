/**
 * The live-category catalog (`PartitionManager`): an ordered list of themes,
 * each with its ordered list of categories, searched by substring of the
 * category name or by the initials of its pinyin.
 */
module Partitions {
  import opened Wrappers
  import opened PyStr
  import opened Payloads

  // ---------------------------------------------------------------------------
  // The pinyin-initials pattern
  // ---------------------------------------------------------------------------

  /**
   * `_get_pinyin_pattern`: only an alphabetic query gets a pattern; its
   * letters, lower-cased, stand for the regular expression `c1.*c2.*…`.
   */
  function Pattern(word: string): (pattern: Option<string>)
    ensures pattern.Some? <==> IsAlphaWord(word)
    ensures pattern.Some? ==> |pattern.value| == |word| > 0
                              && forall i :: 0 <= i < |word| ==> pattern.value[i] == LowerChar(word[i])
  {
    if IsAlphaWord(word) then Some(Lower(word)) else None
  }

  /** One pattern letter (already lower case) against one character, ignoring case. */
  predicate CharMatch(c: char, p: char) {
    LowerChar(p) == c
  }

  /** Greedy scan: do the letters of `q` occur in order somewhere in `s`? */
  function Subseq(q: string, s: string): bool
    decreases |s|
  {
    if q == [] then true
    else if s == [] then false
    else if CharMatch(q[0], s[0]) then Subseq(q[1..], s[1..])
    else Subseq(q, s[1..])
  }

  /**
   * `pattern.match(word)` for the pattern `c1.*c2.*…`: the match is anchored,
   * so `c1` must be the first character, and the other letters follow in order.
   */
  function AnchoredMatch(q: string, s: string): bool {
    q == [] || (s != [] && CharMatch(q[0], s[0]) && Subseq(q[1..], s[1..]))
  }

  /** `_match_pinyin`: a missing pattern never matches. */
  function MatchPinyin(pinyin: string, pattern: Option<string>): bool {
    pattern.Some? && AnchoredMatch(pattern.value, pinyin)
  }

  /** `idx` places the letters of `q` at strictly increasing positions of `s`. */
  ghost predicate IsEmbedding(q: string, s: string, idx: seq<int>) {
    && |idx| == |q|
    && (forall k :: 0 <= k < |idx| ==> 0 <= idx[k] < |s| && CharMatch(q[k], s[idx[k]]))
    && (forall j, k :: 0 <= j < k < |idx| ==> idx[j] < idx[k])
  }

  function Shift(idx: seq<int>, d: int): (r: seq<int>)
    ensures |r| == |idx| && forall k :: 0 <= k < |idx| ==> r[k] == idx[k] + d
  {
    seq(|idx|, k requires 0 <= k < |idx| => idx[k] + d)
  }

  /** An embedding of `q[1..]` in `s[1..]`, put behind position 0, embeds `q` in `s`. */
  lemma EmbedFront(q: string, s: string, rest: seq<int>)
    requires q != [] && s != [] && CharMatch(q[0], s[0])
    requires IsEmbedding(q[1..], s[1..], rest)
    ensures IsEmbedding(q, s, [0] + Shift(rest, 1))
  {
    var idx := [0] + Shift(rest, 1);
    forall k | 0 < k < |idx| ensures 0 <= idx[k] < |s| && CharMatch(q[k], s[idx[k]]) {
      assert idx[k] == rest[k - 1] + 1;
      assert q[k] == q[1..][k - 1];
    }
  }

  /** An embedding of `q` in `s[1..]`, moved one place right, embeds `q` in `s`. */
  lemma EmbedSkip(q: string, s: string, rest: seq<int>)
    requires s != [] && IsEmbedding(q, s[1..], rest)
    ensures IsEmbedding(q, s, Shift(rest, 1))
  {
  }

  /** An embedding that avoids position 0 of `s` is one of `q` in `s[1..]`, moved one place left. */
  lemma EmbedTail(q: string, s: string, idx: seq<int>)
    requires s != [] && IsEmbedding(q, s, idx)
    requires forall k :: 0 <= k < |idx| ==> idx[k] >= 1
    ensures IsEmbedding(q, s[1..], Shift(idx, -1))
  {
  }

  /** The tail of an embedding whose first letter sits at position 0. */
  lemma EmbedAfterFront(q: string, s: string, idx: seq<int>)
    requires q != [] && IsEmbedding(q, s, idx) && idx[0] == 0
    ensures s != [] && CharMatch(q[0], s[0])
    ensures IsEmbedding(q[1..], s[1..], Shift(idx[1..], -1))
  {
    var rest := Shift(idx[1..], -1);
    forall k | 0 <= k < |rest| ensures 0 <= rest[k] < |s[1..]| && CharMatch(q[1..][k], s[1..][rest[k]]) {
      assert idx[0] < idx[k + 1];
    }
  }

  /** The greedy scan succeeds only when an embedding exists. */
  lemma {:induction false} SubseqSound(q: string, s: string)
    requires Subseq(q, s)
    ensures exists idx :: IsEmbedding(q, s, idx)
    decreases |s|
  {
    if q == [] {
      assert IsEmbedding(q, s, []);
    } else if CharMatch(q[0], s[0]) {
      SubseqSound(q[1..], s[1..]);
      var rest :| IsEmbedding(q[1..], s[1..], rest);
      EmbedFront(q, s, rest);
    } else {
      SubseqSound(q, s[1..]);
      var rest :| IsEmbedding(q, s[1..], rest);
      EmbedSkip(q, s, rest);
    }
  }

  /** The greedy scan finds every embedding there is. */
  lemma {:induction false} SubseqComplete(q: string, s: string, idx: seq<int>)
    requires IsEmbedding(q, s, idx)
    ensures Subseq(q, s)
    decreases |s|
  {
    if q != [] {
      assert s != [] by {
        assert 0 <= idx[0] < |s|;
      }
      if CharMatch(q[0], s[0]) {
        var rest := Shift(idx[1..], -1);
        forall k | 0 <= k < |idx[1..]| ensures idx[1..][k] >= 1 {
          assert idx[0] < idx[k + 1];
        }
        EmbedTail(q[1..], s, idx[1..]);
        assert IsEmbedding(q[1..], s[1..], rest);
        SubseqComplete(q[1..], s[1..], rest);
      } else {
        forall k | 0 <= k < |idx| ensures idx[k] >= 1 {
          if k > 0 {
            assert idx[0] < idx[k];
          } else {
            assert idx[0] != 0;
          }
        }
        EmbedTail(q, s, idx);
        SubseqComplete(q, s[1..], Shift(idx, -1));
      }
    }
  }

  /**
   * The anchored match, stated without the scan: `q` matches `s` exactly when
   * its letters can be placed at increasing positions of `s`, ignoring case,
   * the first one at position 0.
   */
  lemma AnchoredMatchIff(q: string, s: string)
    ensures AnchoredMatch(q, s) <==> exists idx :: IsEmbedding(q, s, idx) && (q != [] ==> idx[0] == 0)
  {
    if AnchoredMatch(q, s) {
      if q == [] {
        assert IsEmbedding(q, s, []);
      } else {
        SubseqSound(q[1..], s[1..]);
        var rest :| IsEmbedding(q[1..], s[1..], rest);
        EmbedFront(q, s, rest);
        assert ([0] + Shift(rest, 1))[0] == 0;
      }
    }
    if exists idx :: IsEmbedding(q, s, idx) && (q != [] ==> idx[0] == 0) {
      var idx :| IsEmbedding(q, s, idx) && (q != [] ==> idx[0] == 0);
      if q != [] {
        EmbedAfterFront(q, s, idx);
        SubseqComplete(q[1..], s[1..], Shift(idx[1..], -1));
      }
    }
  }

  /**
   * The pinyin rule of the search: it applies only to an alphabetic query, and
   * then the lower-cased query's letters must sit at increasing positions of
   * the pinyin, ignoring case, the first one at its start.
   */
  lemma MatchPinyinIff(word: string, pinyin: string)
    ensures MatchPinyin(pinyin, Pattern(word))
            <==> IsAlphaWord(word)
                 && exists idx :: IsEmbedding(Lower(word), pinyin, idx) && idx[0] == 0
  {
    if IsAlphaWord(word) {
      AnchoredMatchIff(Lower(word), pinyin);
    }
  }

  // ---------------------------------------------------------------------------
  // Search results, as values
  // ---------------------------------------------------------------------------

  /** The condition under which the search keeps a category. */
  predicate Hit(word: string, pattern: Option<string>, p: Partition) {
    Contains(p.name, word) || MatchPinyin(p.pinyin, pattern)
  }

  /** The categories of `list` the search keeps, in list order. */
  function Hits(word: string, pattern: Option<string>, list: seq<Partition>): (r: seq<Partition>)
    ensures |r| <= |list|
  {
    if list == [] then []
    else
      var last := list[|list| - 1];
      Hits(word, pattern, list[..|list| - 1]) + (if Hit(word, pattern, last) then [last] else [])
  }

  /** One more category at the end of the list: the loop body of the search. */
  lemma HitsSnoc(word: string, pattern: Option<string>, list: seq<Partition>, p: Partition)
    ensures Hits(word, pattern, list + [p])
            == Hits(word, pattern, list) + (if Hit(word, pattern, p) then [p] else [])
  {
    assert (list + [p])[..|list|] == list;
  }

  /** A category is among the results exactly when it is in the list and the query hits it. */
  lemma {:induction false} HitsMembers(word: string, pattern: Option<string>, list: seq<Partition>, p: Partition)
    ensures p in Hits(word, pattern, list) <==> p in list && Hit(word, pattern, p)
  {
    if list != [] {
      var init, last := list[..|list| - 1], list[|list| - 1];
      assert list == init + [last];
      HitsMembers(word, pattern, init, p);
    }
  }

  /** Results keep list order: the hits of a concatenation are the concatenated hits. */
  lemma {:induction false} HitsAppend(word: string, pattern: Option<string>, xs: seq<Partition>, ys: seq<Partition>)
    ensures Hits(word, pattern, xs + ys) == Hits(word, pattern, xs) + Hits(word, pattern, ys)
  {
    if ys == [] {
      assert xs + ys == xs;
    } else {
      var n := |ys| - 1;
      assert (xs + ys)[..|xs + ys| - 1] == xs + ys[..n];
      assert (xs + ys)[|xs + ys| - 1] == ys[n];
      HitsAppend(word, pattern, xs, ys[..n]);
    }
  }

  /** The position of the first theme called `themeName`; `None` when there is none. */
  function FirstTheme(themes: seq<Theme>, themeName: string): (r: Option<nat>)
    ensures r.None? ==> forall i :: 0 <= i < |themes| ==> themes[i].name != Some(themeName)
    ensures r.Some? ==> && r.value < |themes|
                        && themes[r.value].name == Some(themeName)
                        && forall j :: 0 <= j < r.value ==> themes[j].name != Some(themeName)
  {
    if themes == [] then None
    else if themes[0].name == Some(themeName) then Some(0)
    else match FirstTheme(themes[1..], themeName)
      case None => None
      case Some(i) => Some(i + 1)
  }

  /**
   * What `search_partitions` returns: nothing for an empty catalog or query;
   * otherwise the hits among the categories of the first theme so named.
   */
  function SearchResults(themes: seq<Theme>, word: string, themeName: string): seq<Partition> {
    if themes == [] || word == [] then []
    else match FirstTheme(themes, themeName)
      case None => []
      case Some(i) => Hits(word, Pattern(word), themes[i].list)
  }

  /**
   * A category is a search result exactly when the catalog and the query are
   * non-empty, it belongs to the first theme so named, and the query hits it.
   */
  lemma SearchResultsMembers(themes: seq<Theme>, word: string, themeName: string, p: Partition)
    ensures p in SearchResults(themes, word, themeName)
            <==> && themes != [] && word != [] && FirstTheme(themes, themeName).Some?
                 && p in themes[FirstTheme(themes, themeName).value].list
                 && Hit(word, Pattern(word), p)
  {
    if themes != [] && word != [] && FirstTheme(themes, themeName).Some? {
      HitsMembers(word, Pattern(word), themes[FirstTheme(themes, themeName).value].list, p);
    }
  }

  /** Themes after the first one so named, even with the same name, do not change the results. */
  lemma SearchIgnoresLaterThemes(themes: seq<Theme>, later: seq<Theme>, word: string, themeName: string)
    requires FirstTheme(themes, themeName).Some?
    ensures SearchResults(themes + later, word, themeName) == SearchResults(themes, word, themeName)
  {
    var i := FirstTheme(themes, themeName).value;
    var all := themes + later;
    assert all[i] == themes[i];
    var j := FirstTheme(all, themeName);
    assert j.Some?;
    assert j.value == i;
  }

  /** The id of the first entry whose name is exactly `name`; `None` when there is none. */
  function ExactId(results: seq<Partition>, name: string): (r: Option<int>)
    ensures (forall i :: 0 <= i < |results| ==> results[i].name != name) ==> r.None?
    ensures forall i :: (&& 0 <= i < |results| && results[i].name == name
                         && (forall j :: 0 <= j < i ==> results[j].name != name)) ==> r == results[i].id
  {
    if results == [] then None
    else if results[0].name == name then results[0].id
    else
      var r := ExactId(results[1..], name);
      assert forall i :: 1 <= i < |results| ==> results[i] == results[1..][i - 1];
      r
  }

  /** A category named exactly like the query is always among the hits, so the hits find the same first id. */
  lemma {:induction false} ExactIdOfHits(name: string, pattern: Option<string>, list: seq<Partition>)
    ensures ExactId(Hits(name, pattern, list), name) == ExactId(list, name)
  {
    if list != [] {
      var first, rest := list[0], list[1..];
      assert list == [first] + rest;
      HitsAppend(name, pattern, [first], rest);
      assert [first][..0] == [];
      ExactIdOfHits(name, pattern, rest);
      if first.name == name {
        ContainsSelf(name);
        assert Hits(name, pattern, [first]) == [first];
      } else {
        var h := Hits(name, pattern, [first]);
        assert h == [] || h == [first];
        assert (h + Hits(name, pattern, rest))[|h|..] == Hits(name, pattern, rest);
      }
    }
  }

  /**
   * `get_partition_by_name` finds the id of the first category of the first
   * theme so named whose name is exactly `name`; nothing for an empty name or
   * catalog, or when the theme or the name is not there.
   */
  lemma PartitionByNameIsFirstExact(themes: seq<Theme>, name: string, themeName: string)
    ensures ExactId(SearchResults(themes, name, themeName), name)
            == if themes == [] || name == [] || FirstTheme(themes, themeName).None? then None
               else ExactId(themes[FirstTheme(themes, themeName).value].list, name)
  {
    if themes != [] && name != [] && FirstTheme(themes, themeName).Some? {
      ExactIdOfHits(name, Pattern(name), themes[FirstTheme(themes, themeName).value].list);
    }
  }

  /** `partition.get("name", "")` over a list of categories. */
  function Names(list: seq<Partition>): (r: seq<string>)
    ensures |r| == |list| && forall i :: 0 <= i < |list| ==> r[i] == list[i].name
  {
    seq(|list|, i requires 0 <= i < |list| => list[i].name)
  }

  /** `json.load(f).get("data", [])` of a catalog document. */
  function CatalogThemes(doc: CatalogPayload): seq<Theme> {
    doc.data.GetOr([])
  }

  // ---------------------------------------------------------------------------
  // The manager
  // ---------------------------------------------------------------------------

  class PartitionManager {
    /** The themes of the catalog in memory, in file order. */
    var partitionData: seq<Theme>

    /**
     * `__init__` and `load_partition_data`: the `data` list of the catalog file,
     * or no themes when the file does not exist (`onDisk == None`).
     */
    constructor(onDisk: Option<CatalogPayload>)
      ensures partitionData == if onDisk.None? then [] else CatalogThemes(onDisk.value)
    {
      partitionData := if onDisk.None? then [] else CatalogThemes(onDisk.value);
    }

    /** `get_all_themes`: one name per theme, in catalog order, `""` for a theme without one. */
    function GetAllThemes(): (names: seq<string>)
      reads this
      ensures |names| == |partitionData|
      ensures forall i :: 0 <= i < |partitionData| ==> names[i] == partitionData[i].name.GetOr("")
    {
      seq(|partitionData|, i requires 0 <= i < |partitionData| reads this => partitionData[i].name.GetOr(""))
    }

    /** `get_theme_partitions`: the category names of the first theme so named, `[]` when there is none. */
    function GetThemePartitions(themeName: string): (names: seq<string>)
      reads this
      ensures (forall i :: 0 <= i < |partitionData| ==> partitionData[i].name != Some(themeName)) ==> names == []
      ensures forall i :: FirstNamed(partitionData, themeName, i) ==> names == Names(partitionData[i].list)
    {
      ThemeNames(partitionData, themeName)
    }

    /**
     * `search_partitions`: scan the themes for the first one named `themeName`,
     * collect the categories of its list that the query hits, and stop.
     */
    method SearchPartitions(searchWord: string, themeName: string) returns (results: seq<Partition>)
      ensures results == SearchResults(partitionData, searchWord, themeName)
    {
      results := [];
      if partitionData == [] || searchWord == [] {
        return;
      }
      var inputPattern := Pattern(searchWord);
      var i := 0;
      while i < |partitionData|
        invariant 0 <= i <= |partitionData|
        invariant forall j :: 0 <= j < i ==> partitionData[j].name != Some(themeName)
        invariant results == []
      {
        var theme := partitionData[i];
        if theme.name == Some(themeName) {
          var partitionList := theme.list;
          for k := 0 to |partitionList|
            invariant results == Hits(searchWord, inputPattern, partitionList[..k])
          {
            var partition := partitionList[k];
            assert partitionList[..k + 1] == partitionList[..k] + [partition];
            HitsSnoc(searchWord, inputPattern, partitionList[..k], partition);
            if Contains(partition.name, searchWord) || MatchPinyin(partition.pinyin, inputPattern) {
              results := results + [partition];
            }
          }
          assert partitionList[..|partitionList|] == partitionList;
          return;
        }
        i := i + 1;
      }
    }

    /** `get_partition_by_name`: the id of the first search result named exactly `name`. */
    method GetPartitionByName(name: string, themeName: string) returns (id: Option<int>)
      ensures id == ExactId(SearchResults(partitionData, name, themeName), name)
    {
      var searchResults := SearchPartitions(name, themeName);
      var i := 0;
      while i < |searchResults|
        invariant 0 <= i <= |searchResults|
        invariant ExactId(searchResults, name) == ExactId(searchResults[i..], name)
      {
        if searchResults[i].name == name {
          return searchResults[i].id;
        }
        assert searchResults[i..][1..] == searchResults[i + 1..];
        i := i + 1;
      }
      return None;
    }

    /**
     * The in-memory part of `update_partition_data`: the catalog becomes the
     * new document's `data` list, or no themes when it has none.
     */
    method UpdatePartitionData(newData: CatalogPayload)
      modifies this
      ensures partitionData == CatalogThemes(newData)
    {
      partitionData := newData.data.GetOr([]);
    }
  }

  /** Theme `i` is the first of `themes` named `themeName`. */
  predicate FirstNamed(themes: seq<Theme>, themeName: string, i: int) {
    && 0 <= i < |themes| && themes[i].name == Some(themeName)
    && forall j :: 0 <= j < i ==> themes[j].name != Some(themeName)
  }

  /** The scan behind `get_theme_partitions`. */
  function ThemeNames(themes: seq<Theme>, themeName: string): (names: seq<string>)
    ensures (forall i :: 0 <= i < |themes| ==> themes[i].name != Some(themeName)) ==> names == []
    ensures forall i :: FirstNamed(themes, themeName, i) ==> names == Names(themes[i].list)
  {
    if themes == [] then []
    else if themes[0].name == Some(themeName) then Names(themes[0].list)
    else
      var r := ThemeNames(themes[1..], themeName);
      assert forall i :: 1 <= i < |themes| ==> themes[i] == themes[1..][i - 1];
      assert forall i :: FirstNamed(themes, themeName, i) ==> FirstNamed(themes[1..], themeName, i - 1);
      r
  }
}
