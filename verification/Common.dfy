/** Small shared vocabulary. */
module Common {

  /** Go's zero time.Time; no clock reading equals it. */
  const ZERO_TIME: int := 0

  datatype Option<+T> = None | Some(value: T)

  /** No value occurs twice in `xs`. */
  ghost predicate Distinct<T>(xs: seq<T>) {
    forall i, j :: 0 <= i < j < |xs| ==> xs[i] != xs[j]
  }

  /** What `a` holds, `b` holds too. */
  ghost predicate Narrower<K, V>(a: map<K, V>, b: map<K, V>) {
    forall k :: k in a ==> k in b && a[k] == b[k]
  }

  /** Growing a set by one new member raises its size by one; by an old member, not at all. */
  lemma AddOne<T>(s: set<T>, t: set<T>, x: T)
    requires t <= s + {x}
    ensures |t| <= |s| + 1
    ensures x in s ==> |t| <= |s|
  {
    if x in s {
      assert s + {x} == s;
      SubsetSize(t, s);
    } else {
      SubsetSize(t, s + {x});
    }
  }

  lemma {:induction false} SubsetSize<T>(a: set<T>, b: set<T>)
    requires a <= b
    ensures |a| <= |b|
    ensures |a| == |b| ==> a == b
    decreases a
  {
    if a == {} {
    } else {
      var x :| x in a;
      SubsetSize(a - {x}, b - {x});
      assert a == (a - {x}) + {x} && b == (b - {x}) + {x};
    }
  }

  /** `n` times `each`, by addition. */
  function Times(n: nat, each: nat): nat {
    if n == 0 then 0 else Times(n - 1, each) + each
  }

  lemma {:induction false} ProductIsTimes(n: nat, each: nat)
    ensures Times(n, each) == n * each
  {
    if n == 0 {
    } else {
      ProductIsTimes(n - 1, each);
      assert n * each == (n - 1) * each + each;
    }
  }

  lemma Regroup<T>(a: seq<T>, b: seq<T>, c: seq<T>)
    ensures a + (b + c) == a + b + c
  {}

  lemma Behead<T>(a: seq<T>, b: seq<T>)
    requires a != []
    ensures (a + b)[0] == a[0] && (a + b)[1..] == a[1..] + b && a + b != []
  {}

  /** The pieces one after the other. */
  function Flat<T>(pieces: seq<seq<T>>): seq<T> {
    if pieces == [] then [] else pieces[0] + Flat(pieces[1..])
  }

  lemma FlatFirst<T>(piece: seq<T>, rest: seq<seq<T>>)
    ensures Flat([piece] + rest) == piece + Flat(rest)
  {
    assert ([piece] + rest)[1..] == rest;
  }

  lemma {:induction false} FlatConcat<T>(a: seq<seq<T>>, b: seq<seq<T>>)
    ensures Flat(a + b) == Flat(a) + Flat(b)
  {
    if a == [] {
      assert a + b == b;
    } else {
      FlatConcat(a[1..], b);
      Behead(a, b);
      Regroup(a[0], Flat(a[1..]), Flat(b));
    }
  }

  lemma FlatSingle<T>(piece: seq<T>)
    ensures Flat([piece]) == piece
  {
    assert [piece][1..] == [] && Flat<T>([]) == [];
    assert piece + [] == piece;
  }

  lemma FlatOne<T>(pieces: seq<seq<T>>, piece: seq<T>)
    ensures Flat(pieces + [piece]) == Flat(pieces) + piece
  {
    FlatConcat(pieces, [piece]);
    FlatSingle(piece);
  }
}
