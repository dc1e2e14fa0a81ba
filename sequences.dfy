/** Small facts about sequences shared by the other modules. */
module Sequences {

  /** No element occurs twice. */
  ghost predicate Distinct<T>(s: seq<T>) {
    forall i, j | 0 <= i < j < |s| :: s[i] != s[j]
  }

  /** The elements of `s`, as `new Set(s)` collects them. */
  function Elements<T>(s: seq<T>): set<T> {
    set x | x in s
  }

  lemma ElementsCons<T>(s: seq<T>)
    requires s != []
    ensures Elements(s) == {s[0]} + Elements(s[1..])
  {
    forall x | x in s ensures x == s[0] || x in s[1..] {
      var i :| 0 <= i < |s| && s[i] == x;
      if i > 0 { assert s[1..][i - 1] == x; }
    }
  }

  /**
   * A sequence never has more distinct elements than entries, and it has as
   * many exactly when no element occurs twice.
   */
  lemma {:induction false} ElementsSize<T>(s: seq<T>)
    ensures |Elements(s)| <= |s|
    ensures |Elements(s)| == |s| <==> Distinct(s)
  {
    if s != [] {
      var rest := s[1..];
      ElementsSize(rest);
      ElementsCons(s);
      if s[0] in rest {
        var j :| 0 <= j < |rest| && rest[j] == s[0];
        assert s[j + 1] == s[0];
      } else {
        assert Distinct(s) <==> Distinct(rest) by {
          if Distinct(rest) {
            forall i, j | 0 <= i < j < |s| ensures s[i] != s[j] {
              assert s[j] == rest[j - 1];
              if i > 0 { assert s[i] == rest[i - 1]; }
            }
          }
          if Distinct(s) {
            forall i, j | 0 <= i < j < |rest| ensures rest[i] != rest[j] {
              assert rest[i] == s[i + 1] && rest[j] == s[j + 1];
            }
          }
        }
      }
    }
  }

  /** A non-empty sequence is its front followed by its last element, also after a prefix. */
  lemma SplitLast<T>(a: seq<T>, b: seq<T>)
    requires b != []
    ensures b == b[..|b| - 1] + [b[|b| - 1]]
    ensures a + b == (a + b[..|b| - 1]) + [b[|b| - 1]]
  {
  }

  /** A sequence cut as `front + last`, whose front is `a + mid`, is `a` followed by `mid + last`. */
  lemma Regroup<T>(whole: seq<T>, front: seq<T>, last: seq<T>, a: seq<T>, mid: seq<T>, b: seq<T>)
    requires whole == front + last && front == a + mid && b == mid + last
    ensures whole == a + b
  {
  }

  /** Appending an element that is not there yet keeps the sequence free of repetitions. */
  lemma AppendFresh<T>(s: seq<T>, x: T)
    requires Distinct(s) && x !in s
    ensures Distinct(s + [x])
    ensures Elements(s + [x]) == Elements(s) + {x}
  {
    var t := s + [x];
    forall i, j | 0 <= i < j < |t| ensures t[i] != t[j] {
      assert t[i] == s[i];
      if j < |s| { assert t[j] == s[j]; }
    }
  }

  /**
   * The distinct elements in order of first occurrence: the key order of a
   * JavaScript object or `Set` filled from `ls`.
   */
  function FirstOccurrences<T(==)>(ls: seq<T>): (keys: seq<T>)
    ensures Distinct(keys)
    ensures (forall l | l in keys :: l in ls) && (forall l | l in ls :: l in keys)
  {
    if ls == [] then []
    else
      var init := ls[..|ls| - 1];
      var last := ls[|ls| - 1];
      var keys := FirstOccurrences(init);
      assert ls == init + [last];
      if last in keys then keys
      else
        AppendFresh(keys, last);
        keys + [last]
  }

  /** One more element is a new key exactly when it has not occurred yet. */
  lemma FirstOccurrencesAppend<T>(ls: seq<T>, x: T)
    ensures FirstOccurrences(ls + [x]) == if x in FirstOccurrences(ls) then FirstOccurrences(ls) else FirstOccurrences(ls) + [x]
  {
    assert (ls + [x])[..|ls|] == ls;
  }
}
