/** Go's string order, and sorting by it. */
module Ordering {
  /** `a < b`, character by character, a proper prefix coming first. */
  predicate Less(a: string, b: string) {
    b != "" && (a == "" || a[0] < b[0] || (a[0] == b[0] && Less(a[1..], b[1..])))
  }

  lemma {:induction false} LessIsTotal(a: string, b: string)
    ensures Less(a, b) || a == b || Less(b, a)
    ensures !(Less(a, b) && Less(b, a)) && (Less(a, b) ==> a != b)
  {
    if a != "" && b != "" {
      LessIsTotal(a[1..], b[1..]);
      assert a == [a[0]] + a[1..] && b == [b[0]] + b[1..];
    }
  }

  lemma {:induction false} LessIsTransitive(a: string, b: string, c: string)
    requires Less(a, b) && Less(b, c)
    ensures Less(a, c)
  {
    if a != "" && a[0] == b[0] == c[0] {
      LessIsTransitive(a[1..], b[1..], c[1..]);
    }
  }

  predicate Ascending(names: seq<string>) {
    forall i, j :: 0 <= i < j < |names| ==> Less(names[i], names[j])
  }

  function Insert(name: string, names: seq<string>): seq<string> {
    if names == [] || Less(name, names[0]) then [name] + names
    else [names[0]] + Insert(name, names[1..])
  }

  lemma {:induction false} InsertIsOrdered(name: string, names: seq<string>)
    requires Ascending(names) && name !in names
    ensures Ascending(Insert(name, names))
    ensures multiset(Insert(name, names)) == multiset(names) + multiset{name}
  {
    hide Less;
    if names != [] {
      LessIsTotal(name, names[0]);
      assert names == [names[0]] + names[1..];
      if Less(name, names[0]) {
        InsertAtFront(name, names);
      } else {
        var rest := Insert(name, names[1..]);
        InsertIsOrdered(name, names[1..]);
        forall y | y in rest
          ensures Less(names[0], y)
        {
          assert y in multiset(rest);
        }
        Prepend(names[0], rest);
      }
    }
  }

  lemma {:induction false} Prepend(first: string, rest: seq<string>)
    requires Ascending(rest) && forall y :: y in rest ==> Less(first, y)
    ensures Ascending([first] + rest)
  {
    hide Less;
  }

  lemma {:induction false} InsertAtFront(name: string, names: seq<string>)
    requires Ascending(names) && names != [] && Less(name, names[0])
    ensures Ascending([name] + names)
  {
    hide Less;
    forall y | y in names
      ensures Less(name, y)
    {
      if y != names[0] {
        LessIsTransitive(name, names[0], y);
      }
    }
    Prepend(name, names);
  }

  /** Two ascending sequences over the same names are the same sequence. */
  lemma {:induction false} AscendingIsUnique(a: seq<string>, b: seq<string>)
    requires Ascending(a) && Ascending(b) && multiset(a) == multiset(b)
    ensures a == b
  {
    hide Less;
    assert |multiset(a)| == |a| && |multiset(b)| == |b|;
    if a != [] {
      FirstIsLeast(a, b);
      FirstIsLeast(b, a);
      LessIsTotal(a[0], b[0]);
      DropFirst(a);
      DropFirst(b);
      AscendingIsUnique(a[1..], b[1..]);
      assert a == [a[0]] + a[1..] && b == [b[0]] + b[1..];
    }
  }

  lemma {:induction false} DropFirst(a: seq<string>)
    requires a != []
    ensures multiset(a[1..]) == multiset(a) - multiset{a[0]}
  {
    assert a == [a[0]] + a[1..];
  }

  lemma {:induction false} FirstIsLeast(a: seq<string>, b: seq<string>)
    requires Ascending(a) && a != [] && b != [] && multiset(a) == multiset(b)
    ensures a[0] == b[0] || Less(a[0], b[0])
  {
    hide Less;
    assert b[0] in multiset(b);
    assert b[0] in a;
  }

  /** The order is decided by the first character that differs, or by length when there is none. */
  lemma {:induction false} LessIsFirstDifference(a: string, b: string)
    ensures Less(a, b) <==> exists k: nat :: DiffersFirstAt(a, b, k)
  {
    if Less(a, b) {
      var k := FirstDifference(a, b);
      assert DiffersFirstAt(a, b, k);
    }
    if k: nat :| DiffersFirstAt(a, b, k) {
      DifferenceDecides(a, b, k);
    }
  }

  /** `a` and `b` agree on `k` characters, after which `a` ends or goes on with the smaller character. */
  predicate DiffersFirstAt(a: string, b: string, k: nat) {
    k <= |a| && k < |b| && a[..k] == b[..k] && (k == |a| || a[k] as int < b[k] as int)
  }

  lemma {:induction false} FirstDifference(a: string, b: string) returns (k: nat)
    requires Less(a, b)
    ensures DiffersFirstAt(a, b, k)
  {
    if a == "" || a[0] < b[0] {
      k := 0;
    } else {
      var j := FirstDifference(a[1..], b[1..]);
      k := j + 1;
      assert a[..k] == [a[0]] + a[1..][..j] && b[..k] == [b[0]] + b[1..][..j];
    }
  }

  lemma {:induction false} DifferenceDecides(a: string, b: string, k: nat)
    requires DiffersFirstAt(a, b, k)
    ensures Less(a, b)
  {
    if k > 0 {
      assert a[0] == a[..k][0] == b[..k][0] == b[0];
      assert a[1..][..k - 1] == a[..k][1..] && b[1..][..k - 1] == b[..k][1..];
      DifferenceDecides(a[1..], b[1..], k - 1);
    }
  }
}
