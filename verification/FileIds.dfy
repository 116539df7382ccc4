/** Sorted lists of file ids without repetition. */
module FileIds {
  import opened Text

  ghost predicate Increasing(s: seq<string>) {
    forall i, j :: 0 <= i < j < |s| ==> Less(s[i], s[j])
  }

  function Insert(x: string, s: seq<string>): seq<string> {
    if s == [] then [x]
    else if x == s[0] then s
    else if Less(x, s[0]) then [x] + s
    else [s[0]] + Insert(x, s[1..])
  }

  /** The distinct items in order. */
  function Sorted(items: seq<string>): seq<string> {
    if items == [] then [] else Insert(items[0], Sorted(items[1..]))
  }

  function Without(items: seq<string>, known: seq<string>): seq<string> {
    if items == [] then []
    else if items[0] in known then Without(items[1..], known)
    else [items[0]] + Without(items[1..], known)
  }

  function Elements(s: seq<string>): set<string> {
    set x | x in s
  }

  lemma {:induction false} InsertElements(x: string, s: seq<string>)
    ensures Elements(Insert(x, s)) == Elements(s) + {x}
  {
    if s != [] {
      InsertElements(x, s[1..]);
      assert s == [s[0]] + s[1..];
      assert Elements(s) == {s[0]} + Elements(s[1..]);
      assert Elements([s[0]] + Insert(x, s[1..])) == {s[0]} + Elements(Insert(x, s[1..]));
      assert Elements([x] + s) == {x} + Elements(s);
    }
  }

  lemma {:induction false} InsertIncreasing(x: string, s: seq<string>)
    requires Increasing(s)
    ensures Increasing(Insert(x, s))
  {
    if s != [] && x != s[0] {
      if Less(x, s[0]) {
        forall i | 0 <= i < |s| ensures Less(x, s[i]) {
          if i > 0 {
            LessTransitive(x, s[0], s[i]);
          }
        }
      } else {
        var rest := s[1..];
        LessTotal(x, s[0]);
        InsertIncreasing(x, rest);
        InsertElements(x, rest);
        forall i | 0 <= i < |Insert(x, rest)| ensures Less(s[0], Insert(x, rest)[i]) {
          var y := Insert(x, rest)[i];
          assert y in Elements(Insert(x, rest));
          if y != x {
            assert y in Elements(rest);
            var j :| 0 <= j < |rest| && rest[j] == y;
            assert s[j + 1] == y;
          }
        }
      }
    }
  }

  lemma {:induction false} SortedIsTheSet(items: seq<string>)
    ensures Increasing(Sorted(items)) && Elements(Sorted(items)) == Elements(items)
  {
    if items != [] {
      SortedIsTheSet(items[1..]);
      InsertIncreasing(items[0], Sorted(items[1..]));
      InsertElements(items[0], Sorted(items[1..]));
      assert items == [items[0]] + items[1..];
      assert Elements(items) == {items[0]} + Elements(items[1..]);
    }
  }

  lemma {:induction false} WithoutIsTheDifference(items: seq<string>, known: seq<string>)
    requires Increasing(items)
    ensures Increasing(Without(items, known)) && Elements(Without(items, known)) == Elements(items) - Elements(known)
  {
    if items != [] {
      var rest := items[1..];
      WithoutIsTheDifference(rest, known);
      assert items == [items[0]] + rest;
      assert Elements(items) == {items[0]} + Elements(rest);
      if items[0] !in known {
        var kept := Without(rest, known);
        assert Elements([items[0]] + kept) == {items[0]} + Elements(kept);
        forall i | 0 <= i < |kept| ensures Less(items[0], kept[i]) {
          assert kept[i] in Elements(kept);
          assert kept[i] in Elements(rest);
          var j :| 0 <= j < |rest| && rest[j] == kept[i];
          assert items[j + 1] == kept[i];
        }
      }
    }
  }

  /** Sorting the concatenation sorts the union. */
  lemma SortedUnion(a: seq<string>, b: seq<string>)
    ensures Increasing(Sorted(a + b)) && Elements(Sorted(a + b)) == Elements(a) + Elements(b)
  {
    SortedIsTheSet(a + b);
    assert forall x :: x in a + b <==> x in a || x in b;
  }
}
