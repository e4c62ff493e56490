/** The name search of the item list (components/Items.jsx, `searchItems`). */
module ItemSearch {
  import opened ItemModel
  import Seqs

  /** `toLowerCase` on one character, for the ASCII letters. */
  function LowerChar(c: char): char {
    if 'A' <= c <= 'Z' then (c as int - 'A' as int + 'a' as int) as char else c
  }

  function Lower(s: string): (r: string)
    ensures |r| == |s|
    ensures forall i :: 0 <= i < |s| ==> r[i] == LowerChar(s[i])
  {
    if s == [] then [] else [LowerChar(s[0])] + Lower(s[1..])
  }

  lemma LowerIdempotent(s: string)
    ensures Lower(Lower(s)) == Lower(s)
  {
  }

  predicate IsPrefix(p: string, s: string) {
    |p| <= |s| && s[..|p|] == p
  }

  /** `hay.includes(needle)`. */
  predicate Contains(hay: string, needle: string)
    decreases |hay|
  {
    IsPrefix(needle, hay) || (hay != [] && Contains(hay[1..], needle))
  }

  /** `needle` occurs in `hay` starting at position `i`. */
  predicate OccursAt(hay: string, needle: string, i: int) {
    0 <= i <= |hay| - |needle| && hay[i..i + |needle|] == needle
  }

  /** `Contains` holds exactly when `needle` occurs in `hay` at some position. */
  lemma {:induction false} ContainsAt(hay: string, needle: string)
    ensures Contains(hay, needle) <==> exists i :: OccursAt(hay, needle, i)
  {
    if IsPrefix(needle, hay) {
      assert OccursAt(hay, needle, 0);
    } else if hay == [] {
      assert forall i :: !OccursAt(hay, needle, i);
    } else {
      ContainsAt(hay[1..], needle);
      if exists i :: OccursAt(hay, needle, i) {
        var i :| OccursAt(hay, needle, i);
        assert i != 0;
        assert hay[1..][i - 1..i - 1 + |needle|] == hay[i..i + |needle|];
        assert OccursAt(hay[1..], needle, i - 1);
      }
      if Contains(hay[1..], needle) {
        var j :| OccursAt(hay[1..], needle, j);
        assert hay[1..][j..j + |needle|] == hay[j + 1..j + 1 + |needle|];
        assert OccursAt(hay, needle, j + 1);
      }
    }
  }

  /** Whether the item's lower-cased name contains the lower-cased query. */
  predicate Matches(item: Item, query: string) {
    Contains(Lower(item.name), Lower(query))
  }

  /**
   * `searchItems`: a non-empty query keeps, in their order, exactly the items whose name
   * contains it ignoring letter case; an empty query keeps the whole list.
   */
  function SearchItems(items: seq<Item>, query: string): (r: seq<Item>)
    ensures |query| == 0 ==> r == items
    ensures |query| >= 1 ==> Seqs.IsSubsequence(r, items)
    ensures |query| >= 1 ==> forall i :: 0 <= i < |r| ==> Matches(r[i], query)
    ensures |query| >= 1 ==> forall i :: 0 <= i < |items| && Matches(items[i], query) ==> items[i] in r
    ensures |query| >= 1 ==> forall x :: multiset(r)[x] == if Matches(x, query) then multiset(items)[x] else 0
  {
    if |query| >= 1 then Seqs.Filter(items, it => Matches(it, query)) else items
  }

  /** Queries that differ only in letter case find the same items. */
  lemma SearchIgnoresQueryCase(items: seq<Item>, q1: string, q2: string)
    requires Lower(q1) == Lower(q2)
    ensures SearchItems(items, q1) == SearchItems(items, q2)
  {
    assert |q1| == |q2|;
    Seqs.FilterCongruent(items, it => Matches(it, q1), it => Matches(it, q2));
  }

  /** Searching the search result again with the same query changes nothing. */
  lemma SearchIdempotent(items: seq<Item>, query: string)
    ensures SearchItems(SearchItems(items, query), query) == SearchItems(items, query)
  {
    if |query| >= 1 {
      Seqs.FilterKeepsAll(SearchItems(items, query), it => Matches(it, query));
    }
  }
}
