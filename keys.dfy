/** The order in which the ledger's range scan yields keys: lexicographic by
    code point, which is the byte order of their UTF-8 encodings. */
module KeyOrder {

  /** `a` sorts at or before `b`. */
  predicate KeyLE(a: string, b: string)
    decreases |a|
  {
    |a| == 0 || (|b| > 0 && (a[0] < b[0] || (a[0] == b[0] && KeyLE(a[1..], b[1..]))))
  }

  lemma {:induction false} KeyLETotal(a: string, b: string)
    ensures KeyLE(a, b) || KeyLE(b, a)
    decreases |a|
  {
    if |a| > 0 && |b| > 0 && a[0] == b[0] {
      KeyLETotal(a[1..], b[1..]);
    }
  }

  lemma {:induction false} KeyLEAntisymmetric(a: string, b: string)
    requires KeyLE(a, b) && KeyLE(b, a)
    ensures a == b
    decreases |a|
  {
    if |a| > 0 {
      KeyLEAntisymmetric(a[1..], b[1..]);
      assert a == [a[0]] + a[1..] && b == [b[0]] + b[1..];
    }
  }

  lemma {:induction false} KeyLETransitive(a: string, b: string, c: string)
    requires KeyLE(a, b) && KeyLE(b, c)
    ensures KeyLE(a, c)
    decreases |a|
  {
    if |a| > 0 && a[0] == b[0] && b[0] == c[0] {
      KeyLETransitive(a[1..], b[1..], c[1..]);
    }
  }

  predicate IsLeast(m: string, s: set<string>) {
    m in s && forall k :: k in s ==> KeyLE(m, k)
  }

  /** Every non-empty finite set of keys has a least key. */
  lemma {:induction false} LeastExists(s: set<string>)
    requires s != {}
    ensures exists m :: IsLeast(m, s)
    decreases s
  {
    var x :| x in s;
    KeyLETotal(x, x);
    if s != {x} {
      LeastExists(s - {x});
      var m :| IsLeast(m, s - {x});
      KeyLETotal(m, x);
      if !KeyLE(m, x) {
        forall k | k in s
          ensures KeyLE(x, k)
        {
          if k != x {
            KeyLETransitive(x, m, k);
          }
        }
        assert IsLeast(x, s);
      } else {
        assert IsLeast(m, s);
      }
    } else {
      assert IsLeast(x, s);
    }
  }

  lemma LeastUnique(m: string, n: string, s: set<string>)
    requires IsLeast(m, s) && IsLeast(n, s)
    ensures m == n
  {
    KeyLEAntisymmetric(m, n);
  }

  ghost function Least(s: set<string>): (m: string)
    requires s != {}
    ensures IsLeast(m, s)
  {
    LeastExists(s);
    var m :| IsLeast(m, s);
    m
  }

  /** The keys of `s` in the order a full range scan visits them: each key
      once (see AscendingIncreasing for the order). */
  ghost function Ascending(s: set<string>): (r: seq<string>)
    ensures |r| == |s|
    ensures forall k :: k in s <==> k in r
    decreases s
  {
    if s == {} then []
    else
      var m := Least(s);
      [m] + Ascending(s - {m})
  }

  /** The scan order is strictly ascending, so no key comes twice. */
  lemma {:induction false} AscendingIncreasing(s: set<string>)
    ensures forall i, j :: 0 <= i < j < |Ascending(s)| ==>
      KeyLE(Ascending(s)[i], Ascending(s)[j]) && Ascending(s)[i] != Ascending(s)[j]
    decreases s
  {
    if s != {} {
      var m := Least(s);
      var r := Ascending(s);
      var rest := Ascending(s - {m});
      AscendingIncreasing(s - {m});
      assert r == [m] + rest;
      forall i, j | 0 <= i < j < |r|
        ensures KeyLE(r[i], r[j]) && r[i] != r[j]
      {
        assert r[j] == rest[j - 1];
        if i > 0 {
          assert r[i] == rest[i - 1];
          assert KeyLE(rest[i - 1], rest[j - 1]) && rest[i - 1] != rest[j - 1];
        } else {
          assert r[0] == m;
          assert rest[j - 1] in rest;
          assert rest[j - 1] in s - {m};
          assert IsLeast(m, s);
        }
      }
    }
  }
}
