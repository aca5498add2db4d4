/** Byte-wise ordering of lines: `sort` and the order-free directory
    fingerprint. */
module Sorting {

  /** memcmp order, a proper prefix before its extensions. */
  predicate Le(a: string, b: string) {
    a == "" || (b != "" && (a[0] < b[0] || (a[0] == b[0] && Le(a[1..], b[1..]))))
  }

  lemma {:induction false} LeTotal(a: string, b: string)
    ensures Le(a, b) || Le(b, a)
  {
    if a != "" && b != "" && a[0] == b[0] {
      LeTotal(a[1..], b[1..]);
    }
  }

  lemma {:induction false} LeAntisymmetric(a: string, b: string)
    requires Le(a, b) && Le(b, a)
    ensures a == b
  {
    if a != "" && b != "" {
      LeAntisymmetric(a[1..], b[1..]);
      assert a == [a[0]] + a[1..] && b == [b[0]] + b[1..];
    }
  }

  lemma {:induction false} LeTransitive(a: string, b: string, c: string)
    requires Le(a, b) && Le(b, c)
    ensures Le(a, c)
  {
    if a != "" && b[0] == a[0] && c[0] == b[0] {
      LeTransitive(a[1..], b[1..], c[1..]);
    }
  }

  lemma LeReflexive(a: string)
    ensures Le(a, a)
  {
    LeTotal(a, a);
  }

  /** The strings are the same, one goes on where the other ends, or the first
      byte where they differ decides. */
  ghost predicate Lexicographic(a: string, b: string) {
    a <= b || exists k :: 0 <= k < |a| && k < |b| && a[..k] == b[..k] && a[k] < b[k]
  }

  lemma {:induction false} LeIsLexicographic(a: string, b: string)
    ensures Le(a, b) <==> Lexicographic(a, b)
  {
    if a != "" && b != "" && a[0] == b[0] {
      LeIsLexicographic(a[1..], b[1..]);
      assert a == [a[0]] + a[1..] && b == [b[0]] + b[1..];
      if k :| 0 <= k < |a[1..]| && k < |b[1..]| && a[1..][..k] == b[1..][..k] && a[1..][k] < b[1..][k] {
        assert a[..k + 1] == [a[0]] + a[1..][..k] && b[..k + 1] == [b[0]] + b[1..][..k];
        assert a[k + 1] < b[k + 1];
      }
      if k :| 0 <= k < |a| && k < |b| && a[..k] == b[..k] && a[k] < b[k] {
        assert k > 0;
        assert a[1..][..k - 1] == a[..k][1..] && b[1..][..k - 1] == b[..k][1..];
        assert a[1..][k - 1] < b[1..][k - 1];
      }
    }
  }

  ghost predicate Sorted(lines: seq<string>) {
    forall i, j :: 0 <= i < j < |lines| ==> Le(lines[i], lines[j])
  }

  function Insert(x: string, lines: seq<string>): seq<string> {
    if lines == [] || Le(x, lines[0]) then [x] + lines
    else [lines[0]] + Insert(x, lines[1..])
  }

  function Sort(lines: seq<string>): seq<string> {
    if lines == [] then [] else Insert(lines[0], Sort(lines[1..]))
  }

  lemma {:induction false} InsertMembers(x: string, lines: seq<string>)
    ensures multiset(Insert(x, lines)) == multiset(lines) + multiset{x}
    ensures forall l :: l in Insert(x, lines) ==> l == x || l in lines
  {
    if lines != [] && !Le(x, lines[0]) {
      InsertMembers(x, lines[1..]);
      assert lines == [lines[0]] + lines[1..];
    }
  }

  lemma LeastFirst(x: string, lines: seq<string>)
    requires Sorted(lines) && (forall l :: l in lines ==> Le(x, l))
    ensures Sorted([x] + lines)
  {
  }

  lemma {:induction false} InsertSorts(x: string, lines: seq<string>)
    requires Sorted(lines)
    ensures Sorted(Insert(x, lines))
  {
    if lines == [] {
    } else if Le(x, lines[0]) {
      forall l | l in lines
        ensures Le(x, l)
      {
        LeReflexive(l);
        LeTransitive(x, lines[0], l);
      }
      LeastFirst(x, lines);
    } else {
      LeTotal(x, lines[0]);
      InsertSorts(x, lines[1..]);
      InsertMembers(x, lines[1..]);
      LeastFirst(lines[0], Insert(x, lines[1..]));
    }
  }

  /** `sort` gives a sorted permutation of its input lines. */
  lemma {:induction false} SortSorts(lines: seq<string>)
    ensures Sorted(Sort(lines)) && multiset(Sort(lines)) == multiset(lines)
  {
    if lines != [] {
      SortSorts(lines[1..]);
      InsertSorts(lines[0], Sort(lines[1..]));
      InsertMembers(lines[0], Sort(lines[1..]));
      assert lines == [lines[0]] + lines[1..];
    }
  }

  lemma SortedHeadLeast(a: seq<string>, x: string)
    requires Sorted(a) && x in multiset(a)
    ensures a != [] && Le(a[0], x)
  {
    LeReflexive(a[0]);
  }

  lemma MultisetTail(a: seq<string>)
    requires a != []
    ensures multiset(a) == multiset(a[1..]) + multiset{a[0]}
  {
    assert a == [a[0]] + a[1..];
  }

  lemma SameTails(a: multiset<string>, b: multiset<string>, head: string)
    requires a + multiset{head} == b + multiset{head}
    ensures a == b
  {
    assert a == (a + multiset{head}) - multiset{head};
    assert b == (b + multiset{head}) - multiset{head};
  }

  lemma SortedTail(a: seq<string>)
    requires Sorted(a) && a != []
    ensures Sorted(a[1..])
  {
  }

  /** There is only one sorted arrangement, whatever algorithm finds it. */
  lemma {:induction false} SortedUnique(a: seq<string>, b: seq<string>)
    requires Sorted(a) && Sorted(b) && multiset(a) == multiset(b)
    ensures a == b
  {
    hide Le, Sorted;
    assert |a| == |multiset(a)| == |multiset(b)| == |b|;
    if a != [] {
      MultisetTail(a);
      MultisetTail(b);
      SortedHeadLeast(a, b[0]);
      SortedHeadLeast(b, a[0]);
      LeAntisymmetric(a[0], b[0]);
      SortedTail(a);
      SortedTail(b);
      SameTails(multiset(a[1..]), multiset(b[1..]), a[0]);
      SortedUnique(a[1..], b[1..]);
      assert a == [a[0]] + a[1..] && b == [b[0]] + b[1..];
    }
  }

  function Join(lines: seq<string>): string {
    if lines == [] then ""
    else if |lines| == 1 then lines[0]
    else lines[0] + "\n" + Join(lines[1..])
  }

  lemma PrefixRest(lines: seq<string>, n: nat)
    requires 0 < n <= |lines|
    ensures lines[..n][1..] == lines[1..][..n - 1] && lines[..n][0] == lines[0]
  {
  }

  lemma Reassociate(first: string, middle: string, last: string)
    ensures first + "\n" + (middle + "\n" + last) == first + "\n" + middle + "\n" + last
  {
  }

  lemma JoinStep(lines: seq<string>, i: nat)
    requires i < |lines|
    ensures Join(lines[..i + 1]) == if i == 0 then lines[0] else Join(lines[..i]) + "\n" + lines[i]
    decreases i
  {
    if i > 0 {
      PrefixRest(lines, i);
      PrefixRest(lines, i + 1);
      JoinStep(lines[1..], i - 1);
      if i > 1 {
        Reassociate(lines[0], Join(lines[1..][..i - 1]), lines[i]);
      }
    }
  }

  /** The bytes that are hashed for a list of parts: sorted, one to a line. */
  method JoinSorted(parts: seq<string>) returns (preimage: string)
    ensures exists sorted :: Sorted(sorted) && multiset(sorted) == multiset(parts) && preimage == Join(sorted)
  {
    var sorted := Sort(parts);
    SortSorts(parts);
    preimage := "";
    for i := 0 to |sorted|
      invariant preimage == Join(sorted[..i])
    {
      JoinStep(sorted, i);
      if i > 0 {
        preimage := preimage + "\n";
      }
      preimage := preimage + sorted[i];
    }
    assert sorted[..|sorted|] == sorted;
  }

  /** The fingerprint preimage of a directory does not depend on the order in
      which its entries were visited nor on the sorting algorithm. */
  lemma PreimageIgnoresOrder(parts: seq<string>, parts': seq<string>, sorted: seq<string>, sorted': seq<string>)
    requires multiset(parts) == multiset(parts')
    requires Sorted(sorted) && multiset(sorted) == multiset(parts)
    requires Sorted(sorted') && multiset(sorted') == multiset(parts')
    ensures Join(sorted) == Join(sorted') && sorted == Sort(parts)
  {
    SortSorts(parts);
    SortedUnique(sorted, sorted');
    SortedUnique(sorted, Sort(parts));
  }
}
