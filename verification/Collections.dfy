/** Sequences and sets, whatever they hold. */
module Collections {

  ghost predicate Distinct<T>(s: seq<T>) {
    forall i, j :: 0 <= i < j < |s| ==> s[i] != s[j]
  }

  function Elements<T(==)>(s: seq<T>): set<T> {
    set x | x in s
  }

  lemma ElementsNone<T>()
    ensures Elements<T>([]) == {}
  {
  }

  lemma ElementsOne<T>(x: T)
    ensures Elements([x]) == {x}
  {
  }

  // ----- the least element -----

  predicate IsLeast<T(==)>(m: T, s: set<T>, le: (T, T) -> bool) {
    m in s && forall x :: x in s ==> le(m, x)
  }

  ghost predicate IsOrder<T(!new)>(le: (T, T) -> bool) {
    && (forall x, y :: le(x, y) || le(y, x))
    && (forall x, y, z :: le(x, y) && le(y, z) ==> le(x, z))
  }

  lemma {:induction false} HasLeast<T(!new)>(s: set<T>, le: (T, T) -> bool)
    requires s != {} && IsOrder(le)
    ensures exists m :: IsLeast(m, s, le)
    decreases s
  {
    var x :| x in s;
    var rest := s - {x};
    assert s == rest + {x} && le(x, x);
    if rest == {} {
      assert IsLeast(x, s, le);
    } else {
      HasLeast(rest, le);
      var m :| IsLeast(m, rest, le);
      assert le(x, m) || le(m, x);
      assert IsLeast(if le(x, m) then x else m, s, le);
    }
  }
}
