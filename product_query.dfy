/** The product listing query: only listings still for sale, an exact
    category match, a case-insensitive title search, no image data, newest
    first. */
module ProductQuery {
  import opened Types
  import opened ProductModel

  /** ASCII case folding, the part of the regex `i` flag this model keeps. */
  function Lower(c: char): (d: char)
    ensures 'A' <= c <= 'Z' ==> d as int == c as int + 32
    ensures !('A' <= c <= 'Z') ==> d == c
  {
    if 'A' <= c <= 'Z' then (c as int + 32) as char else c
  }

  function LowerAll(s: string): (r: string)
    ensures |r| == |s|
    ensures forall i :: 0 <= i < |s| ==> r[i] == Lower(s[i])
  {
    if s == [] then [] else [Lower(s[0])] + LowerAll(s[1..])
  }

  /** `needle` occurs in `hay` starting at position i. */
  predicate OccursAt(needle: string, hay: string, i: int) {
    0 <= i && i + |needle| <= |hay| && hay[i..i + |needle|] == needle
  }

  /** Substring test, by scanning the start positions of `hay`. */
  function Contains(hay: string, needle: string): (r: bool)
    ensures r <==> exists i :: OccursAt(needle, hay, i)
  {
    if |needle| <= |hay| && hay[..|needle|] == needle then
      assert OccursAt(needle, hay, 0);
      true
    else if hay == [] then
      assert forall i :: !OccursAt(needle, hay, i);
      false
    else
      var r := Contains(hay[1..], needle);
      assert forall i :: OccursAt(needle, hay[1..], i) <==> OccursAt(needle, hay, i + 1) by {
        forall i ensures OccursAt(needle, hay[1..], i) <==> OccursAt(needle, hay, i + 1) {
          if 0 <= i && i + |needle| <= |hay| - 1 {
            var a, b := hay[1..][i..i + |needle|], hay[i + 1..i + 1 + |needle|];
            assert |a| == |b| && forall k :: 0 <= k < |a| ==> a[k] == b[k];
          }
        }
      }
      assert r ==> exists i :: OccursAt(needle, hay, i) by {
        if r {
          var i :| OccursAt(needle, hay[1..], i);
          assert OccursAt(needle, hay, i + 1);
        }
      }
      assert (exists i :: OccursAt(needle, hay, i)) ==> r by {
        if exists i :: OccursAt(needle, hay, i) {
          var i :| OccursAt(needle, hay, i);
          assert i != 0;
          assert OccursAt(needle, hay[1..], i - 1);
        }
      }
      r
  }

  /** `{ title: { $regex: search, $options: 'i' } }`, with the search taken
      as a literal string. */
  predicate TitleMatches(title: string, search: string) {
    Contains(LowerAll(title), LowerAll(search))
  }

  /** The query document: `status: 'selling'`, plus `category` and the title
      search only when the request supplied a non-empty value. */
  predicate Matches(p: Product, category: Option<string>, search: Option<string>) {
    && p.status == Selling
    && (Given(category) ==> p.category == category.value)
    && (Given(search) ==> TitleMatches(p.title, search.value))
  }

  /** `.select('-image')`. */
  function Strip(p: Product): (q: Product)
    ensures q.image == NoImage
    ensures q == p.(image := NoImage)
  {
    p.(image := NoImage)
  }

  /** The matching documents, image removed, in collection order. */
  function Selected(docs: seq<Product>, category: Option<string>, search: Option<string>): (r: seq<Product>)
    ensures forall q :: q in r ==> exists d :: d in docs && Matches(d, category, search) && q == Strip(d)
    ensures forall d :: d in docs && Matches(d, category, search) ==> Strip(d) in r
    ensures |r| <= |docs|
  {
    if docs == [] then []
    else
      var rest := Selected(docs[1..], category, search);
      assert forall d :: d in docs[1..] ==> d in docs;
      assert forall d :: d in docs ==> d == docs[0] || d in docs[1..];
      if Matches(docs[0], category, search) then [Strip(docs[0])] + rest else rest
  }

  /** `.sort({ createdAt: -1 })`. */
  predicate NewestFirst(s: seq<Product>) {
    forall i, j :: 0 <= i < j < |s| ==> s[i].createdAt >= s[j].createdAt
  }

  function InsertNewest(p: Product, s: seq<Product>): (r: seq<Product>)
    requires NewestFirst(s)
    ensures NewestFirst(r)
    ensures multiset(r) == multiset(s) + multiset{p}
    ensures |r| == |s| + 1
    ensures r[0] == p || (s != [] && r[0] == s[0])
  {
    if s == [] || p.createdAt >= s[0].createdAt then
      PrependNewest(p, s);
      [p] + s
    else
      var rest := InsertNewest(p, s[1..]);
      assert s == [s[0]] + s[1..];
      PrependNewest(s[0], rest);
      [s[0]] + rest
  }

  /** An element no older than the head of a newest-first list can go in front. */
  lemma PrependNewest(p: Product, s: seq<Product>)
    requires NewestFirst(s)
    requires s != [] ==> p.createdAt >= s[0].createdAt
    ensures NewestFirst([p] + s)
  {
    var r := [p] + s;
    forall i, j | 0 <= i < j < |r| ensures r[i].createdAt >= r[j].createdAt {
      if i == 0 {
        assert r[j] == s[j - 1];
        assert s[0].createdAt >= s[j - 1].createdAt;
      } else {
        assert r[i] == s[i - 1] && r[j] == s[j - 1];
      }
    }
  }

  function SortNewestFirst(s: seq<Product>): (r: seq<Product>)
    ensures NewestFirst(r)
    ensures multiset(r) == multiset(s)
  {
    if s == [] then []
    else
      assert s == [s[0]] + s[1..];
      InsertNewest(s[0], SortNewestFirst(s[1..]))
  }

  /** GET /api/products over the collection's documents `docs`: newest
      first, exactly the matching documents (each once per stored copy),
      without their images. Ties in `createdAt` may come in any order. */
  function Listing(docs: seq<Product>, category: Option<string>, search: Option<string>): (r: seq<Product>)
    ensures NewestFirst(r)
    ensures multiset(r) == multiset(Selected(docs, category, search))
    ensures forall q :: q in r ==> q.image == NoImage && Matches(q, category, search)
    ensures forall q :: q in r ==> exists d :: d in docs && q == Strip(d)
    ensures forall d :: d in docs && Matches(d, category, search) ==> Strip(d) in r
  {
    var sel := Selected(docs, category, search);
    var r := SortNewestFirst(sel);
    assert forall q :: q in r <==> q in sel by {
      forall q ensures q in r <==> q in sel {
        assert q in r <==> q in multiset(r);
        assert q in sel <==> q in multiset(sel);
      }
    }
    r
  }
}
