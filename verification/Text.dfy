/** ASCII text helpers in the sense of Rust's `str` methods, over sequences of characters. */
module Text {

  function LowerChar(c: char): char {
    if 'A' <= c <= 'Z' then c + ' ' else c
  }

  function Lower(s: string): (r: string)
    ensures |r| == |s|
    ensures forall i :: 0 <= i < |s| ==> r[i] == LowerChar(s[i])
  {
    seq(|s|, i requires 0 <= i < |s| => LowerChar(s[i]))
  }

  predicate EqIgnoreCase(a: string, b: string) {
    Lower(a) == Lower(b)
  }

  // ------------------------------------------------ ordered sets of strings

  /** Lexicographic order, the order of a BTreeSet<String>. */
  predicate LexLe(a: string, b: string) {
    a == [] || (b != [] && (a[0] < b[0] || (a[0] == b[0] && LexLe(a[1..], b[1..]))))
  }

  lemma {:induction false} LexTotal(a: string, b: string)
    ensures LexLe(a, b) || LexLe(b, a)
    ensures LexLe(a, b) && LexLe(b, a) ==> a == b
  {
    if a != [] && b != [] && a[0] == b[0] {
      LexTotal(a[1..], b[1..]);
      assert a == [a[0]] + a[1..] && b == [b[0]] + b[1..];
    }
  }

  lemma {:induction false} LexTransitive(a: string, b: string, c: string)
    requires LexLe(a, b) && LexLe(b, c)
    ensures LexLe(a, c)
  {
    if a != [] && a[0] == b[0] && b[0] == c[0] {
      LexTransitive(a[1..], b[1..], c[1..]);
    }
  }

  predicate IsFirst(s: set<string>, m: string) {
    m in s && forall x :: x in s ==> LexLe(m, x)
  }

  lemma {:induction false} FirstExists(s: set<string>)
    requires s != {}
    ensures exists m :: IsFirst(s, m)
    decreases |s|
  {
    var a :| a in s;
    var rest := s - {a};
    assert s == rest + {a};
    LexTotal(a, a);
    if rest == {} {
      assert IsFirst(s, a);
    } else {
      FirstExists(rest);
      var m :| IsFirst(rest, m);
      LexTotal(a, m);
      forall x | x in rest && LexLe(a, m) ensures LexLe(a, x) { LexTransitive(a, m, x); }
      assert IsFirst(s, if LexLe(a, m) then a else m);
    }
  }

  lemma {:induction false} FirstUnique(s: set<string>)
    ensures forall m, n :: IsFirst(s, m) && IsFirst(s, n) ==> m == n
  {
    forall m, n | IsFirst(s, m) && IsFirst(s, n) ensures m == n { LexTotal(m, n); }
  }

  function First(s: set<string>): (m: string)
    requires s != {}
    ensures IsFirst(s, m)
  {
    FirstExists(s);
    FirstUnique(s);
    var m :| IsFirst(s, m);
    m
  }

  /** The ordered traversal of a set of strings. */
  function Ordered(s: set<string>): (r: seq<string>)
    decreases |s|
  {
    if s == {} then [] else [First(s)] + Ordered(s - {First(s)})
  }

  lemma {:induction false} OrderedMembers(s: set<string>, x: string)
    ensures x in Ordered(s) <==> x in s
    decreases |s|
  {
    if s != {} { OrderedMembers(s - {First(s)}, x); }
  }

  lemma {:induction false} OrderedDistinct(s: set<string>)
    ensures forall i, j :: 0 <= i < j < |Ordered(s)| ==> Ordered(s)[i] != Ordered(s)[j]
    decreases |s|
  {
    hide First;
    if s != {} {
      var rest := s - {First(s)};
      OrderedDistinct(rest);
      OrderedMembers(rest, First(s));
    }
  }

  lemma {:induction false} OrderedLex(s: set<string>)
    ensures forall i, j :: 0 <= i < j < |Ordered(s)| ==> LexLe(Ordered(s)[i], Ordered(s)[j])
    decreases |s|
  {
    hide LexLe;
    if s != {} {
      var first, rest := First(s), Ordered(s - {First(s)});
      OrderedLex(s - {first});
      forall j | 0 <= j < |rest| ensures LexLe(first, rest[j]) { OrderedMembers(s - {first}, rest[j]); }
    }
  }
}
