/** The order of the keys of a `BTreeMap<String, _>`. */
module TextOrder {

  /** `a` comes no later than `b`. */
  predicate NotAfter(a: string, b: string) {
    || a == []
    || (b != [] && (a[0] < b[0] || (a[0] == b[0] && NotAfter(a[1..], b[1..]))))
  }

  lemma {:induction false} NotAfterIsTotal(a: string, b: string)
    ensures NotAfter(a, b) || NotAfter(b, a)
  {
    if a != [] && b != [] && a[0] == b[0] {
      NotAfterIsTotal(a[1..], b[1..]);
    }
  }

  lemma {:induction false} NotAfterIsTransitive(a: string, b: string, c: string)
    requires NotAfter(a, b) && NotAfter(b, c)
    ensures NotAfter(a, c)
  {
    if a != [] && a[0] == b[0] && b[0] == c[0] {
      NotAfterIsTransitive(a[1..], b[1..], c[1..]);
    }
  }

  ghost predicate IsFirst(k: string, keys: set<string>) {
    k in keys && forall other :: other in keys ==> NotAfter(k, other)
  }

  lemma {:induction false} FirstExists(keys: set<string>)
    requires keys != {}
    ensures exists k :: IsFirst(k, keys)
  {
    var any :| any in keys;
    var rest := keys - {any};
    if rest == {} {
      NotAfterIsTotal(any, any);
      assert keys == {any};
      assert IsFirst(any, keys);
    } else {
      FirstExists(rest);
      var k :| IsFirst(k, rest);
      NotAfterIsTotal(any, k);
      NotAfterIsTotal(any, any);
      if NotAfter(any, k) {
        forall other | other in keys ensures NotAfter(any, other) {
          if other != any {
            NotAfterIsTransitive(any, k, other);
          }
        }
        assert IsFirst(any, keys);
      } else {
        assert IsFirst(k, keys);
      }
    }
  }

  lemma {:induction false} NotAfterIsAntisymmetric(a: string, b: string)
    requires NotAfter(a, b) && NotAfter(b, a)
    ensures a == b
  {
    if a != [] {
      NotAfterIsAntisymmetric(a[1..], b[1..]);
      assert a == [a[0]] + a[1..] && b == [b[0]] + b[1..];
    }
  }

  lemma FirstIsUnique(a: string, b: string, keys: set<string>)
    requires IsFirst(a, keys) && IsFirst(b, keys)
    ensures a == b
  {
    NotAfterIsAntisymmetric(a, b);
  }

  /** The first key in order. */
  ghost function LeastKey(keys: set<string>): (k: string)
    requires keys != {}
    ensures IsFirst(k, keys)
  {
    FirstExists(keys);
    var k :| IsFirst(k, keys);
    k
  }
}
