/**
 * The favourites ("favoris") toggle of the snippet card: the list of user
 * handles who starred a snippet, and the new list the card computes when the
 * signed-in user presses the star. The card never mutates the list it was
 * given; it builds a new one with `filter` or with a spread-and-append.
 */
module Favourites {

  /** A user handle (the GitHub screen name the card calls `pseudo`). */
  type Handle = string

  /** `s` can be obtained from `t` by deleting elements, keeping the order of the rest. */
  ghost predicate IsSubsequence(s: seq<Handle>, t: seq<Handle>)
    decreases |t|
  {
    s == [] || (t != [] && ((s[0] == t[0] && IsSubsequence(s[1..], t[1..])) || IsSubsequence(s, t[1..])))
  }

  /**
   * `favoris.filter((item) => item !== pseudo)`: no occurrence of `pseudo`
   * survives, and nothing else is invented.
   */
  function Without(favoris: seq<Handle>, pseudo: Handle): (r: seq<Handle>)
    ensures pseudo !in r
    ensures forall h :: h in r ==> h in favoris
  {
    if favoris == [] then []
    else if favoris[0] == pseudo then Without(favoris[1..], pseudo)
    else [favoris[0]] + Without(favoris[1..], pseudo)
  }

  /** The filter keeps every other handle exactly as often as the input has it. */
  lemma {:induction false} WithoutCounts(favoris: seq<Handle>, pseudo: Handle)
    ensures forall h :: h != pseudo ==> multiset(Without(favoris, pseudo))[h] == multiset(favoris)[h]
    ensures |Without(favoris, pseudo)| == |favoris| - multiset(favoris)[pseudo]
  {
    if favoris != [] {
      WithoutCounts(favoris[1..], pseudo);
      assert favoris == [favoris[0]] + favoris[1..];
      assert multiset(favoris) == multiset{favoris[0]} + multiset(favoris[1..]);
    }
  }

  /**
   * The list `addCodeOnFavoris` writes back: if `pseudo` is already a
   * favourite, all its occurrences are removed; otherwise it is appended.
   */
  function Toggle(favoris: seq<Handle>, pseudo: Handle): (r: seq<Handle>)
    ensures (pseudo in r) <==> (pseudo !in favoris)
    ensures forall h :: h != pseudo ==> multiset(r)[h] == multiset(favoris)[h]
    ensures pseudo in favoris ==> IsSubsequence(r, favoris) && |r| == |favoris| - multiset(favoris)[pseudo]
    ensures pseudo !in favoris ==> |r| == |favoris| + 1 && r[..|favoris|] == favoris && r[|favoris|] == pseudo
  {
    if pseudo in favoris then
      WithoutIsSubsequence(favoris, pseudo);
      WithoutCounts(favoris, pseudo);
      Without(favoris, pseudo)
    else
      favoris + [pseudo]
  }

  /** Deleting elements can only lower each handle's number of occurrences. */
  lemma {:induction false} SubsequenceCounts(s: seq<Handle>, t: seq<Handle>)
    requires IsSubsequence(s, t)
    ensures multiset(s) <= multiset(t)
    decreases |t|
  {
    if s == [] {
    } else if s[0] == t[0] && IsSubsequence(s[1..], t[1..]) {
      SubsequenceCounts(s[1..], t[1..]);
      assert s == [s[0]] + s[1..];
      assert t == [t[0]] + t[1..];
    } else {
      SubsequenceCounts(s, t[1..]);
      assert t == [t[0]] + t[1..];
    }
  }

  /** Filtering keeps the relative order of the handles it keeps. */
  lemma {:induction false} WithoutIsSubsequence(favoris: seq<Handle>, pseudo: Handle)
    ensures IsSubsequence(Without(favoris, pseudo), favoris)
  {
    if favoris != [] {
      WithoutIsSubsequence(favoris[1..], pseudo);
      var rest := Without(favoris[1..], pseudo);
      if favoris[0] != pseudo {
        assert ([favoris[0]] + rest)[1..] == rest;
      }
    }
  }

  /**
   * The filter is the only list that is an order-preserving sublist of the
   * input, lacks `pseudo`, and keeps every other handle as often as the input has it.
   */
  lemma {:induction false} WithoutIsUnique(favoris: seq<Handle>, pseudo: Handle, s: seq<Handle>)
    requires IsSubsequence(s, favoris)
    requires pseudo !in s
    requires forall h :: h != pseudo ==> multiset(s)[h] == multiset(favoris)[h]
    ensures s == Without(favoris, pseudo)
  {
    if favoris == [] {
      assert s == [];
    } else {
      var h, t := favoris[0], favoris[1..];
      assert favoris == [h] + t;
      if h == pseudo {
        assert s != [] ==> s[0] != h;
        assert IsSubsequence(s, t);
        WithoutIsUnique(t, pseudo, s);
      } else {
        assert multiset(s)[h] >= 1;
        assert s != [];
        if s[0] == h && IsSubsequence(s[1..], t) {
          assert s == [h] + s[1..];
          assert multiset(s) == multiset{h} + multiset(s[1..]);
          assert multiset(favoris) == multiset{h} + multiset(t);
          forall x | x != pseudo
            ensures multiset(s[1..])[x] == multiset(t)[x]
          {
            assert multiset(s)[x] == multiset(favoris)[x];
            assert multiset(s)[x] == (if x == h then 1 else 0) + multiset(s[1..])[x];
            assert multiset(favoris)[x] == (if x == h then 1 else 0) + multiset(t)[x];
          }
          WithoutIsUnique(t, pseudo, s[1..]);
        } else {
          assert IsSubsequence(s, t);
          SubsequenceCounts(s, t);
          assert false;
        }
      }
    }
  }

  /** A list that lacks `pseudo` passes through the filter unchanged. */
  lemma {:induction false} WithoutAbsent(favoris: seq<Handle>, pseudo: Handle)
    requires pseudo !in favoris
    ensures Without(favoris, pseudo) == favoris
  {
    if favoris != [] {
      WithoutAbsent(favoris[1..], pseudo);
      assert favoris == [favoris[0]] + favoris[1..];
    }
  }

  /** Filtering a concatenation filters each part. */
  lemma {:induction false} WithoutConcat(a: seq<Handle>, b: seq<Handle>, pseudo: Handle)
    ensures Without(a + b, pseudo) == Without(a, pseudo) + Without(b, pseudo)
  {
    if a == [] {
      assert a + b == b;
    } else {
      var ab := a + b;
      assert ab[0] == a[0] && ab[1..] == a[1..] + b;
      var head := if a[0] == pseudo then [] else [a[0]];
      assert Without(ab, pseudo) == head + Without(a[1..] + b, pseudo);
      assert Without(a, pseudo) == head + Without(a[1..], pseudo);
      WithoutConcat(a[1..], b, pseudo);
      assert head + (Without(a[1..], pseudo) + Without(b, pseudo))
          == (head + Without(a[1..], pseudo)) + Without(b, pseudo);
    }
  }

  /** Toggling twice from a list that lacks `pseudo` gives the original list back. */
  lemma {:induction false} ToggleTwiceRestores(favoris: seq<Handle>, pseudo: Handle)
    requires pseudo !in favoris
    ensures Toggle(Toggle(favoris, pseudo), pseudo) == favoris
  {
    WithoutConcat(favoris, [pseudo], pseudo);
    WithoutAbsent(favoris, pseudo);
    assert Without([pseudo], pseudo) == [];
  }

  /**
   * In general a double toggle gives the list back exactly when `pseudo` was
   * absent, or was there once and last; otherwise its occurrences are merged
   * into a single one at the end.
   */
  lemma {:induction false} ToggleTwice(favoris: seq<Handle>, pseudo: Handle)
    ensures pseudo in favoris ==> Toggle(Toggle(favoris, pseudo), pseudo) == Without(favoris, pseudo) + [pseudo]
    ensures Toggle(Toggle(favoris, pseudo), pseudo) == favoris
        <==> pseudo !in favoris || (multiset(favoris)[pseudo] == 1 && favoris[|favoris| - 1] == pseudo)
  {
    if pseudo !in favoris {
      ToggleTwiceRestores(favoris, pseudo);
    } else {
      var twice := Without(favoris, pseudo) + [pseudo];
      assert Toggle(Toggle(favoris, pseudo), pseudo) == twice;
      if multiset(favoris)[pseudo] == 1 && favoris[|favoris| - 1] == pseudo {
        var front := favoris[..|favoris| - 1];
        assert favoris == front + [pseudo];
        assert multiset(favoris) == multiset(front) + multiset{pseudo};
        assert pseudo !in front;
        WithoutConcat(front, [pseudo], pseudo);
        WithoutAbsent(front, pseudo);
        assert Without([pseudo], pseudo) == [];
      }
      if twice == favoris {
        assert multiset(twice) == multiset(Without(favoris, pseudo)) + multiset{pseudo};
        assert multiset(favoris)[pseudo] == 1;
      }
    }
  }

}
