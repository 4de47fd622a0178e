/** Small vocabulary shared by every module of the model. */
module Common {

  datatype Option<+T> = None | Some(value: T)

  newtype Byte = b: int | 0 <= b < 256
  type Bytes = seq<Byte>

  /** Strictly increasing: the order in which a BTreeSet, or the keys of a BTreeMap, are visited. */
  ghost predicate Ascending(s: seq<nat>) {
    forall i, j :: 0 <= i < j < |s| ==> s[i] < s[j]
  }

  predicate IsLeast(s: set<nat>, m: nat) {
    m in s && forall x :: x in s ==> m <= x
  }

  lemma {:induction false} LeastExists(s: set<nat>)
    requires s != {}
    ensures exists m :: IsLeast(s, m)
    decreases |s|
  {
    var a :| a in s;
    var rest := s - {a};
    assert s == rest + {a};
    if rest == {} {
      assert IsLeast(s, a);
    } else {
      LeastExists(rest);
      var m :| IsLeast(rest, m);
      assert IsLeast(s, if a < m then a else m);
    }
  }

  lemma {:induction false} SetSize<T>(a: set<T>, b: set<T>)
    requires a <= b
    ensures |a| <= |b|
  {
    assert b == a + (b - a);
  }

  function Min(s: set<nat>): (m: nat)
    requires s != {}
    ensures IsLeast(s, m)
  {
    LeastExists(s);
    var m :| IsLeast(s, m);
    m
  }

  /** The ordered traversal of a set of addresses. */
  function Sorted(s: set<nat>): (r: seq<nat>)
    decreases |s|
  {
    if s == {} then [] else [Min(s)] + Sorted(s - {Min(s)})
  }

  lemma {:induction false} SortedMembers(s: set<nat>, x: nat)
    ensures x in Sorted(s) <==> x in s
    decreases |s|
  {
    if s != {} {
      SortedMembers(s - {Min(s)}, x);
    }
  }

  lemma {:induction false} SortedOrder(s: set<nat>)
    ensures Ascending(Sorted(s))
    decreases |s|
  {
    if s != {} {
      var rest := Sorted(s - {Min(s)});
      SortedOrder(s - {Min(s)});
      forall j | 0 <= j < |rest|
        ensures Min(s) < rest[j]
      {
        SortedMembers(s - {Min(s)}, rest[j]);
      }
    }
  }
}
