/**
 * The pure helpers of the cSpell check (`check_dev_files/cspell.py`): sorting a list section
 * case-insensitively and naming a list of sections in natural language.
 */
module CspellSections {
  import opened Text

  /** `a.lower() <= b.lower()`: the order `__sort_section` sorts by. */
  predicate KeyLe(a: string, b: string) {
    Le(Lower(a), Lower(b))
  }

  lemma KeyLeTotal(a: string, b: string)
    ensures KeyLe(a, b) || KeyLe(b, a)
  {
    LeTotal(Lower(a), Lower(b));
  }

  lemma KeyLeTransitive(a: string, b: string, c: string)
    requires KeyLe(a, b) && KeyLe(b, c)
    ensures KeyLe(a, c)
  {
    LeTransitive(Lower(a), Lower(b), Lower(c));
  }

  /** Strictly greater keys are different keys. */
  lemma KeyGreaterDiffers(a: string, b: string)
    requires !KeyLe(a, b)
    ensures Lower(a) != Lower(b)
  {
    LeReflexive(Lower(a));
  }

  /** Ordered non-decreasingly by lowercase key. */
  predicate Sorted(xs: seq<string>) {
    forall i, j :: 0 <= i < j < |xs| ==> KeyLe(xs[i], xs[j])
  }

  /** The entries of `xs` whose lowercase key is `k`, in their order in `xs`. */
  function SameKey(xs: seq<string>, k: string): seq<string> {
    if |xs| == 0 then []
    else
      var last := xs[|xs| - 1];
      SameKey(xs[..|xs| - 1], k) + (if Lower(last) == k then [last] else [])
  }

  /** Puts `x` after every entry of a sorted `ys` whose key is not greater than its own. */
  function Insert(ys: seq<string>, x: string): (r: seq<string>)
    ensures multiset(r) == multiset(ys) + multiset{x}
  {
    if |ys| == 0 then [x]
    else
      var last := ys[|ys| - 1];
      assert ys == ys[..|ys| - 1] + [last];
      if KeyLe(last, x) then ys + [x] else Insert(ys[..|ys| - 1], x) + [last]
  }

  /**
   * `__sort_section`: `sorted(content, key=lambda s: s.lower())`, a stable sort, written as an
   * insertion sort. The result is a permutation of the input.
   */
  function SortSection(xs: seq<string>): (r: seq<string>)
    ensures multiset(r) == multiset(xs)
  {
    if |xs| == 0 then []
    else
      assert xs == xs[..|xs| - 1] + [xs[|xs| - 1]];
      Insert(SortSection(xs[..|xs| - 1]), xs[|xs| - 1])
  }

  /** Inserting an entry not above a bound into entries not above it keeps every entry not above it. */
  lemma InsertBelow(ys: seq<string>, x: string, bound: string)
    requires forall i :: 0 <= i < |ys| ==> KeyLe(ys[i], bound)
    requires KeyLe(x, bound)
    ensures forall i :: 0 <= i < |Insert(ys, x)| ==> KeyLe(Insert(ys, x)[i], bound)
  {
    var r := Insert(ys, x);
    forall i | 0 <= i < |r| ensures KeyLe(r[i], bound) {
      var e := r[i];
      assert e in multiset(r);
      if e != x {
        assert e in multiset(ys);
        var k :| 0 <= k < |ys| && ys[k] == e;
      }
    }
  }

  lemma {:induction false} InsertSorted(ys: seq<string>, x: string)
    requires Sorted(ys)
    ensures Sorted(Insert(ys, x))
  {
    if |ys| > 0 {
      var n := |ys| - 1;
      var last := ys[n];
      if KeyLe(last, x) {
        var r := ys + [x];
        forall i, j | 0 <= i < j < |r| ensures KeyLe(r[i], r[j]) {
          if j == n + 1 && i < n {
            KeyLeTransitive(ys[i], last, x);
          }
        }
      } else {
        var init := ys[..n];
        assert Sorted(init);
        InsertSorted(init, x);
        KeyLeTotal(last, x);
        InsertBelow(init, x, last);
        var front := Insert(init, x);
        var r := front + [last];
        forall i, j | 0 <= i < j < |r| ensures KeyLe(r[i], r[j]) {
          if j < |front| {
            assert r[i] == front[i] && r[j] == front[j];
          } else {
            assert r[i] == front[i] && r[j] == last;
          }
        }
      }
    }
  }

  /** The sorted section is ordered by lowercase key. */
  lemma {:induction false} SortSectionSorted(xs: seq<string>)
    ensures Sorted(SortSection(xs))
  {
    if |xs| > 0 {
      SortSectionSorted(xs[..|xs| - 1]);
      InsertSorted(SortSection(xs[..|xs| - 1]), xs[|xs| - 1]);
    }
  }

  lemma {:induction false} InsertStable(ys: seq<string>, x: string, k: string)
    ensures SameKey(Insert(ys, x), k) == SameKey(ys, k) + (if Lower(x) == k then [x] else [])
  {
    if |ys| == 0 {
      assert [x][..0] == [];
    } else {
      var n := |ys| - 1;
      var last := ys[n];
      if KeyLe(last, x) {
        assert (ys + [x])[..n + 1] == ys;
      } else {
        var front := Insert(ys[..n], x);
        InsertStable(ys[..n], x, k);
        assert (front + [last])[..|front|] == front;
        KeyGreaterDiffers(last, x);
      }
    }
  }

  /** Stability: the entries sharing one lowercase key keep their relative order. */
  lemma {:induction false} SortSectionStable(xs: seq<string>, k: string)
    ensures SameKey(SortSection(xs), k) == SameKey(xs, k)
  {
    if |xs| > 0 {
      var n := |xs| - 1;
      SortSectionStable(xs[..n], k);
      InsertStable(SortSection(xs[..n]), xs[n], k);
    }
  }

  lemma SortedPrefix(xs: seq<string>, n: nat)
    requires Sorted(xs) && n <= |xs|
    ensures Sorted(xs[..n])
  {
    var init := xs[..n];
    forall i, j | 0 <= i < j < |init| ensures KeyLe(init[i], init[j]) {
      assert init[i] == xs[i] && init[j] == xs[j];
    }
  }

  /** An entry whose key is not below the last key goes at the end. */
  lemma InsertAtEnd(ys: seq<string>, x: string)
    requires |ys| == 0 || KeyLe(ys[|ys| - 1], x)
    ensures Insert(ys, x) == ys + [x]
  {
  }

  /** A section that is already sorted is returned as it is. */
  lemma {:induction false} SortSectionOfSorted(xs: seq<string>)
    requires Sorted(xs)
    ensures SortSection(xs) == xs
  {
    if |xs| > 0 {
      var n := |xs| - 1;
      var init := xs[..n];
      SortedPrefix(xs, n);
      SortSectionOfSorted(init);
      assert n == 0 || KeyLe(init[n - 1], xs[n]) by {
        if n > 0 {
          assert init[n - 1] == xs[n - 1];
        }
      }
      InsertAtEnd(init, xs[n]);
      assert init + [xs[n]] == xs;
    }
  }

  /** Sorting twice is sorting once, so a second sorting pass never changes a section. */
  lemma SortSectionIdempotent(xs: seq<string>)
    ensures SortSection(SortSection(xs)) == SortSection(xs)
  {
    SortSectionSorted(xs);
    SortSectionOfSorted(SortSection(xs));
  }

  /**
   * The docstring example: `__sort_section({"one", "Two"}) == ['one', 'Two']`. A set has no fixed
   * iteration order, so both orders of the input give that result.
   */
  lemma SortSectionExample()
    ensures SortSection(["one", "Two"]) == ["one", "Two"]
    ensures SortSection(["Two", "one"]) == ["one", "Two"]
  {
    assert Lower("one") == "one" && Lower("Two") == "two";
    assert KeyLe("one", "Two");
    assert !KeyLe("Two", "one") by {
      assert Lower("Two")[0] == 't' && Lower("one")[0] == 'o';
    }
    assert ["one", "Two"][..1] == ["one"];
    assert ["Two", "one"][..1] == ["Two"];
    assert Insert(["Two"], "one") == Insert([], "one") + ["Two"];
  }

  /**
   * `__express_list_of_sections`: "Section a", "Sections a and b", and for three or more
   * "Sections a, b, and c", with a comma after every name but the last.
   */
  function ExpressList(sections: seq<string>): (r: string)
    ensures |sections| == 0 ==> r == ""
    ensures |sections| == 1 ==> r == "Section " + sections[0]
    ensures |sections| == 2 ==> r == "Sections " + sections[0] + " and " + sections[1]
    ensures |sections| >= 3 ==>
      r == "Sections " + Terminated(sections[..|sections| - 1], ", ") + "and " + sections[|sections| - 1]
  {
    if |sections| == 0 then ""
    else if |sections| == 1 then "Section" + " " + sections[0]
    else
      var init := sections[..|sections| - 1];
      JoinThenSeparator(", ", init);
      assert |init| == 1 ==> init == [sections[0]];
      "Section" + "s " + Join(", ", init) + (if |sections| > 2 then "," else "") + " and " + sections[|sections| - 1]
  }

  /** The docstring examples of `__express_list_of_sections` with fewer than three sections. */
  lemma ExpressListShortExamples()
    ensures ExpressList([]) == ""
    ensures ExpressList(["one"]) == "Section one"
    ensures ExpressList(["one", "two"]) == "Sections one and two"
  {
  }

  /** The docstring example of `__express_list_of_sections` with three sections. */
  lemma ExpressListLongExample()
    ensures ExpressList(["one", "two", "three"]) == "Sections one, two, and three"
  {
    var init := ["one", "two"];
    assert ["one", "two", "three"][..2] == init;
    assert init[..1] == ["one"];
    assert Join(", ", init) == "one, two";
  }
}
