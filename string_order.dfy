/** Python's ordering of `str` values (code point by code point, a proper
    prefix first), which `groupby` uses to order its keys, and insertion
    into a strictly ascending list of names. */
module StringOrder {

  /** `a < b` on Python strings. */
  predicate Less(a: string, b: string)
  {
    if a == [] then b != []
    else b != [] && (a[0] < b[0] || (a[0] == b[0] && Less(a[1..], b[1..])))
  }

  lemma {:induction false} Irreflexive(a: string)
    ensures !Less(a, a)
  {
    if a != [] {
      Irreflexive(a[1..]);
    }
  }

  lemma {:induction false} Transitive(a: string, b: string, c: string)
    requires Less(a, b) && Less(b, c)
    ensures Less(a, c)
  {
    if a != [] && a[0] == b[0] && b[0] == c[0] {
      Transitive(a[1..], b[1..], c[1..]);
    }
  }

  lemma {:induction false} Connected(a: string, b: string)
    requires a != b
    ensures Less(a, b) || Less(b, a)
  {
    if a != [] && b != [] && a[0] == b[0] {
      assert a == [a[0]] + a[1..] && b == [b[0]] + b[1..];
      Connected(a[1..], b[1..]);
    }
  }

  predicate StrictlySorted(ns: seq<string>)
  {
    forall i, j :: 0 <= i < j < |ns| ==> Less(ns[i], ns[j])
  }

  /** No name occurs twice. */
  predicate Distinct(ns: seq<string>)
  {
    forall i, j :: 0 <= i < |ns| && 0 <= j < |ns| && i != j ==> ns[i] != ns[j]
  }

  /** A strictly ascending list holds no name twice. */
  lemma SortedDistinct(ns: seq<string>)
    requires StrictlySorted(ns)
    ensures Distinct(ns)
  {
    forall i, j | 0 <= i < |ns| && 0 <= j < |ns| && i != j
      ensures ns[i] != ns[j]
    {
      if i < j {
        Irreflexive(ns[i]);
      } else {
        Irreflexive(ns[j]);
      }
    }
  }

  /** Adds `x` to an ascending list of distinct names, keeping it ascending. */
  function Insert(ns: seq<string>, x: string): (r: seq<string>)
    requires StrictlySorted(ns)
    ensures StrictlySorted(r)
    ensures forall y :: y in r <==> y in ns || y == x
  {
    if ns == [] then [x]
    else if x == ns[0] then ns
    else if Less(x, ns[0]) then
      assert forall j :: 0 < j < |ns| ==> Less(x, ns[j]) by {
        forall j | 0 < j < |ns| ensures Less(x, ns[j]) {
          Transitive(x, ns[0], ns[j]);
        }
      }
      [x] + ns
    else
      Connected(x, ns[0]);
      var rest := Insert(ns[1..], x);
      assert forall y :: y in rest ==> Less(ns[0], y);
      [ns[0]] + rest
  }
}
