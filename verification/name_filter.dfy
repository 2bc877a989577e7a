/**
 The filter behind the results' text box: keep, in order, every record whose
 name contains the query, both lower-cased.
 */
module NameFilter {
  import opened Text
  import opened PostalApi

  /** `post.Name.toLowerCase().includes(text.toLowerCase())`; only the name is searched. */
  predicate Matches(p: PostOffice, text: string)
    ensures text == "" ==> Matches(p, text)
    ensures Matches(p, text) ==> |text| <= |p.name|
  {
    Includes(ToLower(p.name), ToLower(text))
  }

  /** A record matches iff the lower-cased text occurs somewhere in its lower-cased name. */
  lemma MatchesIffOccurs(p: PostOffice, text: string)
    ensures Matches(p, text) <==> exists i :: OccursAt(ToLower(p.name), ToLower(text), i)
  {
    IncludesIffOccurs(ToLower(p.name), ToLower(text));
  }

  /** `xs` can be obtained from `ys` by deleting elements, the rest kept in order. */
  predicate IsSubsequence<T(==)>(xs: seq<T>, ys: seq<T>)
    decreases |ys|
  {
    if |xs| == 0 then true
    else if |ys| == 0 then false
    else if xs[0] == ys[0] then IsSubsequence(xs[1..], ys[1..])
    else IsSubsequence(xs, ys[1..])
  }

  /** `data.filter(post => Matches(post, text))`. */
  function FilterByName(data: seq<PostOffice>, text: string): (r: seq<PostOffice>)
    ensures |r| <= |data|
    ensures forall i :: 0 <= i < |r| ==> Matches(r[i], text)
  {
    if |data| == 0 then []
    else if Matches(data[0], text) then [data[0]] + FilterByName(data[1..], text)
    else FilterByName(data[1..], text)
  }

  /** One step of the scan: the filter of a suffix, split at its first record. */
  lemma FilterFrom(data: seq<PostOffice>, i: nat, text: string)
    requires i < |data|
    ensures FilterByName(data[i..], text)
      == (if Matches(data[i], text) then [data[i]] else []) + FilterByName(data[i + 1..], text)
  {
    assert data[i..][0] == data[i] && data[i..][1..] == data[i + 1..];
  }

  /** The filter as the array method runs it: one pass, appending each match. */
  method FilterPosts(data: seq<PostOffice>, text: string) returns (r: seq<PostOffice>)
    ensures r == FilterByName(data, text)
  {
    var query := ToLower(text);
    r := [];
    var i := 0;
    while i < |data|
      invariant 0 <= i <= |data|
      invariant r + FilterByName(data[i..], text) == FilterByName(data, text)
    {
      FilterFrom(data, i, text);
      if Includes(ToLower(data[i].name), query) {
        r := r + [data[i]];
      }
      i := i + 1;
    }
  }

  /** The records kept appear in the data in the same relative order. */
  lemma {:induction false} FilterIsSubsequence(data: seq<PostOffice>, text: string)
    ensures IsSubsequence(FilterByName(data, text), data)
  {
    if |data| > 0 {
      FilterIsSubsequence(data[1..], text);
      var tail := FilterByName(data[1..], text);
      if Matches(data[0], text) {
        assert FilterByName(data, text) == [data[0]] + tail;
        assert ([data[0]] + tail)[1..] == tail;
      } else {
        SubsequenceOfTail(tail, data);
      }
    }
  }

  /** Dropping the first element of the larger sequence keeps a subsequence a subsequence. */
  lemma {:induction false} SubsequenceOfTail<T>(xs: seq<T>, ys: seq<T>)
    requires |ys| > 0 && IsSubsequence(xs, ys[1..])
    ensures IsSubsequence(xs, ys)
    decreases |ys|, 0
  {
    if |xs| > 0 && xs[0] == ys[0] {
      SubsequenceDropHead(xs, ys[1..]);
    }
  }

  /** Dropping the first element of a subsequence keeps it a subsequence. */
  lemma {:induction false} SubsequenceDropHead<T>(xs: seq<T>, zs: seq<T>)
    requires |xs| > 0 && IsSubsequence(xs, zs)
    ensures IsSubsequence(xs[1..], zs)
    decreases |zs|, 1
  {
    if xs[0] == zs[0] {
      SubsequenceOfTail(xs[1..], zs);
    } else {
      SubsequenceDropHead(xs, zs[1..]);
      SubsequenceOfTail(xs[1..], zs);
    }
  }

  /** A record is kept iff it is in the data and its name matches the text. */
  lemma {:induction false} FilterMembership(data: seq<PostOffice>, text: string, p: PostOffice)
    ensures p in FilterByName(data, text) <==> p in data && Matches(p, text)
  {
    if |data| > 0 {
      FilterMembership(data[1..], text, p);
      assert data == [data[0]] + data[1..];
      if Matches(data[0], text) {
        assert FilterByName(data, text) == [data[0]] + FilterByName(data[1..], text);
      } else {
        assert FilterByName(data, text) == FilterByName(data[1..], text);
      }
    }
  }

  /**
   Duplicates are neither merged nor dropped: each record occurs in the result
   as often as in the data when it matches, and not at all otherwise.
   */
  lemma {:induction false} FilterMultiplicity(data: seq<PostOffice>, text: string, p: PostOffice)
    ensures multiset(FilterByName(data, text))[p] == if Matches(p, text) then multiset(data)[p] else 0
  {
    if |data| > 0 {
      var tail := data[1..];
      FilterMultiplicity(tail, text, p);
      assert data == [data[0]] + tail;
      CountCons(data[0], tail, p);
      if Matches(data[0], text) {
        assert FilterByName(data, text) == [data[0]] + FilterByName(tail, text);
        CountCons(data[0], FilterByName(tail, text), p);
      } else {
        assert FilterByName(data, text) == FilterByName(tail, text);
      }
    }
  }

  lemma CountCons(x: PostOffice, s: seq<PostOffice>, p: PostOffice)
    ensures multiset([x] + s)[p] == (if p == x then 1 else 0) + multiset(s)[p]
  {
    assert multiset([x] + s) == multiset([x]) + multiset(s);
  }

  /** When every record matches, the filter returns the data itself. */
  lemma {:induction false} FilterKeepsAllMatching(data: seq<PostOffice>, text: string)
    requires forall p :: p in data ==> Matches(p, text)
    ensures FilterByName(data, text) == data
  {
    if |data| > 0 {
      assert data[0] in data;
      forall p | p in data[1..]
        ensures Matches(p, text)
      {
        assert p in data;
      }
      FilterKeepsAllMatching(data[1..], text);
      assert data == [data[0]] + data[1..];
    }
  }

  /** An empty query matches every name, so it shows all the data. */
  lemma FilterEmptyText(data: seq<PostOffice>)
    ensures FilterByName(data, "") == data
  {
    forall p | p in data
      ensures Matches(p, "")
    {
      assert ToLower("") == "";
      IncludesEmpty(ToLower(p.name));
    }
    FilterKeepsAllMatching(data, "");
  }

  /** Filtering a filtered list again with the same query changes nothing. */
  lemma FilterIdempotent(data: seq<PostOffice>, text: string)
    ensures FilterByName(FilterByName(data, text), text) == FilterByName(data, text)
  {
    FilterKeepsAllMatching(FilterByName(data, text), text);
  }

  /** The query's case does not matter. */
  lemma FilterCaseInsensitive(data: seq<PostOffice>, text: string)
    ensures FilterByName(data, text) == FilterByName(data, ToLower(text))
  {
    ToLowerIdempotent(text);
  }

  /**
   Narrowing: when the longer query contains the shorter one (as typing more letters
   does), filtering the shorter query's result gives the same list as filtering the data.
   */
  lemma {:induction false} FilterNarrowing(data: seq<PostOffice>, shorter: string, longer: string)
    requires Includes(ToLower(longer), ToLower(shorter))
    ensures FilterByName(FilterByName(data, shorter), longer) == FilterByName(data, longer)
  {
    if |data| > 0 {
      FilterNarrowing(data[1..], shorter, longer);
      if Matches(data[0], longer) {
        IncludesTransitive(ToLower(data[0].name), ToLower(longer), ToLower(shorter));
      }
    }
  }

  /** The filter distributes over concatenation of the data. */
  lemma {:induction false} FilterAppend(a: seq<PostOffice>, b: seq<PostOffice>, text: string)
    ensures FilterByName(a + b, text) == FilterByName(a, text) + FilterByName(b, text)
  {
    if |a| > 0 {
      var ab := a + b;
      assert ab[0] == a[0];
      assert ab[1..] == a[1..] + b;
      FilterAppend(a[1..], b, text);
      var rest := FilterByName(a[1..], text) + FilterByName(b, text);
      if Matches(a[0], text) {
        assert FilterByName(ab, text) == [a[0]] + rest;
        assert FilterByName(a, text) == [a[0]] + FilterByName(a[1..], text);
      } else {
        assert FilterByName(ab, text) == rest;
        assert FilterByName(a, text) == FilterByName(a[1..], text);
      }
    } else {
      assert a + b == b;
    }
  }
}
