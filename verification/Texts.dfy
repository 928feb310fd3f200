/** Text as the store's runtime sees it: a sequence of UTF-16 code units, compared
    and sorted code unit by code unit. Identifiers are texts too. */
module Texts {
  datatype Option<+T> = None | Some(value: T)

  type Unit = u: int | 0 <= u < 0x10000
  type Text = seq<Unit>

  /** Reads a literal. The literals of this model are ASCII. */
  function T(s: string): (t: Text)
    ensures |t| == |s|
  {
    seq(|s|, i requires 0 <= i < |s| => if s[i] as int < 0x10000 then s[i] as int else 0xFFFD)
  }

  predicate IsBlank(t: Text)
  {
    forall i :: 0 <= i < |t| ==> IsSpace(t[i])
  }

  /** The code units `String.prototype.trim` removes. */
  predicate IsSpace(u: Unit)
  {
    9 <= u <= 13 || u == 0x20 || u == 0xA0 || u == 0x1680 || 0x2000 <= u <= 0x200A ||
    u == 0x2028 || u == 0x2029 || u == 0x202F || u == 0x205F || u == 0x3000 || u == 0xFEFF
  }

  /** `String.prototype.includes` */
  predicate Includes(t: Text, part: Text)
  {
    part <= t || (t != [] && Includes(t[1..], part))
  }

  lemma {:induction false} IncludesSuffix(t: Text, part: Text, rest: Text)
    ensures Includes(t + part + rest, part)
  {
    if t == [] {
      assert part <= t + part + rest;
    } else {
      IncludesSuffix(t[1..], part, rest);
      assert (t + part + rest)[1..] == t[1..] + part + rest;
    }
  }

  lemma {:induction false} IncludesExactly(t: Text, part: Text)
    ensures Includes(t, part) <==> exists a: Text, b: Text {:trigger a + part + b} :: t == a + part + b
  {
    if Includes(t, part) {
      if part <= t {
        assert t == [] + part + t[|part|..];
      } else {
        IncludesExactly(t[1..], part);
        var a: Text, b: Text :| t[1..] == a + part + b;
        assert t == ([t[0]] + a) + part + b;
      }
    }
    if exists a: Text, b: Text :: t == a + part + b {
      var a: Text, b: Text :| t == a + part + b;
      IncludesSuffix(a, part, b);
    }
  }

  predicate AtMost(a: Text, b: Text)
  {
    a == [] || (b != [] && (a[0] < b[0] || (a[0] == b[0] && AtMost(a[1..], b[1..]))))
  }

  lemma {:induction false} AtMostTotal(a: Text, b: Text)
    ensures AtMost(a, b) || AtMost(b, a)
    ensures AtMost(a, b) && AtMost(b, a) ==> a == b
  {
    if a != [] && b != [] {
      AtMostTotal(a[1..], b[1..]);
      assert a == [a[0]] + a[1..] && b == [b[0]] + b[1..];
    }
  }

  lemma {:induction false} AtMostTransitive(a: Text, b: Text, c: Text)
    requires AtMost(a, b) && AtMost(b, c)
    ensures AtMost(a, c)
  {
    if a != [] && a[0] == b[0] == c[0] {
      AtMostTransitive(a[1..], b[1..], c[1..]);
    }
  }

  ghost predicate Ascending(s: seq<Text>)
  {
    forall i, j :: 0 <= i <= j < |s| ==> AtMost(s[i], s[j])
  }

  function Insert(x: Text, s: seq<Text>): seq<Text>
  {
    if s == [] || AtMost(x, s[0]) then [x] + s else [s[0]] + Insert(x, s[1..])
  }

  /** What `Array.prototype.sort` promises of an array of strings. */
  function Sort(s: seq<Text>): seq<Text>
  {
    if s == [] then [] else Insert(s[0], Sort(s[1..]))
  }

  lemma {:induction false} InsertAdds(x: Text, s: seq<Text>)
    ensures multiset(Insert(x, s)) == multiset{x} + multiset(s)
  {
    if s != [] && !AtMost(x, s[0]) {
      InsertAdds(x, s[1..]);
      assert s == [s[0]] + s[1..];
    }
  }

  lemma AscendingCons(x: Text, s: seq<Text>)
    requires Ascending(s) && forall y :: y in s ==> AtMost(x, y)
    ensures Ascending([x] + s)
  {
    AtMostTotal(x, x);
    forall i, j | 0 <= i <= j < |s| + 1 ensures AtMost(([x] + s)[i], ([x] + s)[j]) {
      if i > 0 {
        assert AtMost(s[i - 1], s[j - 1]);
      } else if j > 0 {
        assert s[j - 1] in s;
      }
    }
  }

  lemma {:induction false} InsertSorts(x: Text, s: seq<Text>)
    requires Ascending(s)
    ensures Ascending(Insert(x, s))
  {
    if s == [] || AtMost(x, s[0]) {
      forall y | y in s ensures AtMost(x, y) {
        var j :| 0 <= j < |s| && s[j] == y;
        assert AtMost(s[0], s[j]);
        AtMostTransitive(x, s[0], s[j]);
      }
      AscendingCons(x, s);
    } else {
      AtMostTotal(x, s[0]);
      InsertSorts(x, s[1..]);
      InsertAdds(x, s[1..]);
      forall y | y in Insert(x, s[1..]) ensures AtMost(s[0], y) {
        assert y in multiset(Insert(x, s[1..]));
        assert y == x || y in multiset(s[1..]);
      }
      AscendingCons(s[0], Insert(x, s[1..]));
    }
  }

  lemma {:induction false} SortSorts(s: seq<Text>)
    ensures Ascending(Sort(s))
    ensures multiset(Sort(s)) == multiset(s)
  {
    if s != [] {
      SortSorts(s[1..]);
      InsertSorts(s[0], Sort(s[1..]));
      InsertAdds(s[0], Sort(s[1..]));
      assert s == [s[0]] + s[1..];
    }
  }

  lemma LeastFirst(a: seq<Text>, b: seq<Text>)
    requires Ascending(a) && a != [] && b != [] && multiset(a) == multiset(b)
    ensures AtMost(a[0], b[0])
  {
    assert b[0] in multiset(a);
    var j :| 0 <= j < |a| && a[j] == b[0];
    assert AtMost(a[0], a[j]);
  }

  /** A multiset of texts has only one ascending listing. */
  lemma {:induction false} AscendingUnique(a: seq<Text>, b: seq<Text>)
    requires Ascending(a) && Ascending(b) && multiset(a) == multiset(b)
    ensures a == b
  {
    assert |a| == |multiset(a)| && |b| == |multiset(b)|;
    if a != [] {
      LeastFirst(a, b);
      LeastFirst(b, a);
      AtMostTotal(a[0], b[0]);
      assert a == [a[0]] + a[1..] && b == [b[0]] + b[1..];
      assert multiset(a[1..]) == multiset(a) - multiset{a[0]};
      assert multiset(b[1..]) == multiset(b) - multiset{b[0]};
      AscendingUnique(a[1..], b[1..]);
    }
  }

  /** Sorting forgets exactly the order. */
  lemma SortDecidesPermutation(a: seq<Text>, b: seq<Text>)
    ensures Sort(a) == Sort(b) <==> multiset(a) == multiset(b)
  {
    SortSorts(a);
    SortSorts(b);
    if multiset(a) == multiset(b) {
      AscendingUnique(Sort(a), Sort(b));
    }
  }

  ghost predicate NoDuplicates(s: seq<Text>)
  {
    forall i, j :: 0 <= i < j < |s| ==> s[i] != s[j]
  }

  ghost function Elements(s: seq<Text>): set<Text>
  {
    set x | x in s
  }

  /** `[...new Set(s)]`: the first occurrence of each text, in order. */
  function Distinct(s: seq<Text>): seq<Text>
  {
    if s == [] then [] else
    var d := Distinct(s[..|s| - 1]);
    if s[|s| - 1] in s[..|s| - 1] then d else d + [s[|s| - 1]]
  }

  lemma {:induction false} DistinctKeepsElements(s: seq<Text>)
    ensures NoDuplicates(Distinct(s))
    ensures forall x :: x in Distinct(s) <==> x in s
  {
    if s != [] {
      var init, last := s[..|s| - 1], s[|s| - 1];
      DistinctKeepsElements(init);
      assert s == init + [last];
    }
  }

  lemma {:induction false} NoDuplicatesCount(s: seq<Text>)
    requires NoDuplicates(s)
    ensures |Elements(s)| == |s|
    ensures multiset(s) == multiset(Elements(s))
  {
    if s != [] {
      var init, last := s[..|s| - 1], s[|s| - 1];
      NoDuplicatesCount(init);
      assert s == init + [last];
      assert last !in Elements(init);
      assert Elements(s) == Elements(init) + {last};
    }
  }

  lemma {:induction false} ElementsCount(s: seq<Text>)
    ensures |Elements(s)| <= |s|
  {
    if s != [] {
      var init, last := s[..|s| - 1], s[|s| - 1];
      ElementsCount(init);
      assert s == init + [last];
      assert Elements(s) == Elements(init) + {last};
    }
  }

  lemma RepetitionShrinks(s: seq<Text>, i: int, j: int)
    requires 0 <= i < j < |s| && s[i] == s[j]
    ensures |Elements(s)| < |s|
  {
    var rest := s[..j] + s[j + 1..];
    ElementsCount(rest);
    assert Elements(rest) == Elements(s) by {
      forall x | x in s ensures x in rest {
        var k :| 0 <= k < |s| && s[k] == x;
        assert rest[if k == j then i else if k < j then k else k - 1] == x;
      }
    }
  }

  lemma NoDuplicatesPermuted(a: seq<Text>, b: seq<Text>)
    requires NoDuplicates(a) && multiset(a) == multiset(b)
    ensures NoDuplicates(b) && Elements(a) == Elements(b)
  {
    NoDuplicatesCount(a);
    forall x ensures x in Elements(a) <==> x in Elements(b) {
      assert x in a <==> x in multiset(a);
      assert x in b <==> x in multiset(b);
    }
    forall i, j | 0 <= i < j < |b| ensures b[i] != b[j] {
      var head, tail := b[..j], b[j..];
      assert b == head + tail;
      assert head[i] in multiset(head) && tail[0] in multiset(tail);
      assert multiset(b)[b[i]] == multiset(Elements(a))[b[i]] <= 1;
    }
  }

  ghost function AnyOrder(s: set<Text>): (l: seq<Text>)
    ensures forall x :: x in l <==> x in s
    ensures NoDuplicates(l)
    decreases |s|
  {
    if s == {} then [] else
    var x :| x in s;
    AnyOrder(s - {x}) + [x]
  }

  /** The one ascending duplicate-free listing of a set: `[...keys].sort()`. */
  ghost function Listing(s: set<Text>): (l: seq<Text>)
    ensures Ascending(l) && NoDuplicates(l) && Elements(l) == s
    ensures forall x :: x in l <==> x in s
  {
    var l := AnyOrder(s);
    SortSorts(l);
    NoDuplicatesPermuted(l, Sort(l));
    assert Elements(l) == s;
    assert forall x :: x in Sort(l) <==> x in Elements(Sort(l));
    Sort(l)
  }

  lemma ListingUnique(l: seq<Text>)
    requires Ascending(l) && NoDuplicates(l)
    ensures l == Listing(Elements(l))
  {
    var k := Listing(Elements(l));
    NoDuplicatesCount(l);
    NoDuplicatesCount(k);
    AscendingUnique(l, k);
  }

  /** Lists a set of keys in ascending order. */
  method SortedKeys(s: set<Text>) returns (l: seq<Text>)
    ensures l == Listing(s)
  {
    l := [];
    var rest := s;
    while rest != {}
      invariant NoDuplicates(l)
      invariant Elements(l) !! rest && Elements(l) + rest == s
      decreases |rest|
    {
      var x :| x in rest;
      assert x !in Elements(l);
      assert Elements(l + [x]) == Elements(l) + {x};
      l := l + [x];
      rest := rest - {x};
    }
    SortSorts(l);
    NoDuplicatesPermuted(l, Sort(l));
    ListingUnique(Sort(l));
    l := Sort(l);
  }
}
