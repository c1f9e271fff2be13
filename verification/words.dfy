/** Lists of strings: putting a common prefix in front of every word, and
    the lexicographic order in which the program's results come out. */
module Words {

  /** `p` placed in front of every word of `ws`, keeping their order. */
  function Prepend(p: string, ws: seq<string>): seq<string>
    decreases |ws|
  {
    if |ws| == 0 then [] else [p + ws[0]] + Prepend(p, ws[1..])
  }

  /** Strict lexicographic order on strings, the order of `<` on
      `std::string`: a proper prefix comes first, otherwise the first
      differing character decides. */
  predicate Less(a: string, b: string)
    decreases |a|
  {
    |b| > 0 && (|a| == 0 || a[0] < b[0] || (a[0] == b[0] && Less(a[1..], b[1..])))
  }

  /** Every word comes strictly before every later one. */
  predicate StrictlySorted(ws: seq<string>) {
    forall i, j :: 0 <= i < j < |ws| ==> Less(ws[i], ws[j])
  }

  predicate Distinct(ws: seq<string>) {
    forall i, j :: 0 <= i < j < |ws| ==> ws[i] != ws[j]
  }

  /** Word `i` of `Prepend(p, ws)` is `p` followed by word `i` of `ws`. */
  lemma {:induction false} PrependIndex(p: string, ws: seq<string>)
    ensures |Prepend(p, ws)| == |ws|
    ensures forall i :: 0 <= i < |ws| ==> Prepend(p, ws)[i] == p + ws[i]
    decreases |ws|
  {
    if |ws| > 0 {
      PrependIndex(p, ws[1..]);
    }
  }

  lemma PrependEmpty(ws: seq<string>)
    ensures Prepend([], ws) == ws
  {
    PrependIndex([], ws);
    assert forall i :: 0 <= i < |ws| ==> Prepend([], ws)[i] == ws[i];
  }

  lemma PrependConcat(p: string, a: seq<string>, b: seq<string>)
    ensures Prepend(p, a + b) == Prepend(p, a) + Prepend(p, b)
  {
    PrependIndex(p, a + b);
    PrependIndex(p, a);
    PrependIndex(p, b);
    forall i | 0 <= i < |a + b|
      ensures Prepend(p, a + b)[i] == (Prepend(p, a) + Prepend(p, b))[i]
    {
      if i >= |a| {
        assert (a + b)[i] == b[i - |a|];
      }
    }
  }

  lemma {:induction false} PrependPrepend(p: string, q: string, ws: seq<string>)
    ensures Prepend(p, Prepend(q, ws)) == Prepend(p + q, ws)
    decreases |ws|
  {
    if |ws| > 0 {
      PrependPrepend(p, q, ws[1..]);
      assert p + (q + ws[0]) == (p + q) + ws[0];
    }
  }

  /** A word is in `Prepend([c], ws)` exactly when it starts with `c` and the
      rest of it is in `ws`. */
  lemma PrependCharMembership(c: char, ws: seq<string>, w: string)
    ensures w in Prepend([c], ws) <==> |w| > 0 && w[0] == c && w[1..] in ws
  {
    PrependIndex([c], ws);
    if |w| > 0 && w[0] == c && w[1..] in ws {
      var i :| 0 <= i < |ws| && ws[i] == w[1..];
      assert Prepend([c], ws)[i] == w;
    }
    if w in Prepend([c], ws) {
      var i :| 0 <= i < |ws| && Prepend([c], ws)[i] == w;
      assert w[1..] == ws[i];
    }
  }

  /** No string comes before itself. */
  lemma {:induction false} LessIrreflexive(a: string)
    ensures !Less(a, a)
    decreases |a|
  {
    if |a| > 0 {
      LessIrreflexive(a[1..]);
    }
  }

  /** The order is transitive, so `Less` is a strict order. */
  lemma {:induction false} LessTransitive(a: string, b: string, c: string)
    requires Less(a, b) && Less(b, c)
    ensures Less(a, c)
    decreases |a|
  {
    if |a| > 0 && a[0] == b[0] && b[0] == c[0] {
      LessTransitive(a[1..], b[1..], c[1..]);
    }
  }

  /** A common first character does not change the order. */
  lemma LessCons(c: char, x: string, y: string)
    ensures Less([c] + x, [c] + y) <==> Less(x, y)
  {
    assert ([c] + x)[1..] == x;
    assert ([c] + y)[1..] == y;
  }

  /** A strictly sorted list has no word twice. */
  lemma SortedDistinct(ws: seq<string>)
    requires StrictlySorted(ws)
    ensures Distinct(ws)
  {
    forall i, j | 0 <= i < j < |ws|
      ensures ws[i] != ws[j]
    {
      LessIrreflexive(ws[i]);
    }
  }

  lemma SortedConcat(a: seq<string>, b: seq<string>)
    requires StrictlySorted(a) && StrictlySorted(b)
    requires forall x, y :: x in a && y in b ==> Less(x, y)
    ensures StrictlySorted(a + b)
  {
    forall i, j | 0 <= i < j < |a + b|
      ensures Less((a + b)[i], (a + b)[j])
    {
      if j < |a| {
      } else if i >= |a| {
        assert (a + b)[i] == b[i - |a|] && (a + b)[j] == b[j - |a|];
      } else {
        assert (a + b)[i] in a && (a + b)[j] in b;
      }
    }
  }

  /** Lists with the same members are empty together. */
  lemma SameMembersEmpty(a: seq<string>, b: seq<string>)
    requires forall w :: w in a <==> w in b
    ensures |a| == 0 <==> |b| == 0
  {
    if |a| > 0 {
      assert a[0] in b;
    }
    if |b| > 0 {
      assert b[0] in a;
    }
  }

  /** A strictly sorted list is fixed by the words it holds: two such lists
      with the same members are equal. */
  lemma {:induction false} SortedUnique(a: seq<string>, b: seq<string>)
    requires StrictlySorted(a) && StrictlySorted(b)
    requires forall w :: w in a <==> w in b
    ensures a == b
    decreases |a|
  {
    SameMembersEmpty(a, b);
    if |a| > 0 {
      assert a[0] in b && b[0] in a;
      var k :| 0 <= k < |b| && b[k] == a[0];
      var m :| 0 <= m < |a| && a[m] == b[0];
      if k > 0 && m > 0 {
        LessTransitive(a[0], b[0], a[0]);
        LessIrreflexive(a[0]);
      } else if k > 0 {
        LessIrreflexive(a[0]);
      } else if m > 0 {
        LessIrreflexive(b[0]);
      }
      assert a[0] == b[0];
      SortedDistinct(a);
      SortedDistinct(b);
      forall w
        ensures w in a[1..] <==> w in b[1..]
      {
        if w in a[1..] {
          var i :| 1 <= i < |a| && a[i] == w;
          assert w in b && w != b[0];
        }
        if w in b[1..] {
          var i :| 1 <= i < |b| && b[i] == w;
          assert w in a && w != a[0];
        }
      }
      SortedUnique(a[1..], b[1..]);
      assert a == [a[0]] + a[1..] && b == [b[0]] + b[1..];
    }
  }

  /** Prefixing every word with the same character keeps the list sorted. */
  lemma PrependCharSorted(c: char, ws: seq<string>)
    requires StrictlySorted(ws)
    ensures StrictlySorted(Prepend([c], ws))
  {
    PrependIndex([c], ws);
    forall i, j | 0 <= i < j < |ws|
      ensures Less(Prepend([c], ws)[i], Prepend([c], ws)[j])
    {
      LessCons(c, ws[i], ws[j]);
    }
  }
}
