/** Byte strings, their lexicographic order (Go's bytes.Compare and string `<`) and sorting. */
module ByteStrings {

  newtype byte = b: int | 0 <= b < 256

  type Bytes = seq<byte>

  /** The bytes of a text of one-byte characters. */
  function Ascii(text: string): (s: Bytes)
    requires forall c :: c in text ==> c as int < 128
    ensures |s| == |text| && forall i :: 0 <= i < |s| ==> s[i] as int == text[i] as int
  {
    seq(|text|, i requires 0 <= i < |text| => assert text[i] in text; text[i] as int as byte)
  }

  /** Strict lexicographic order. */
  predicate Less(a: Bytes, b: Bytes)
  {
    b != [] && (a == [] || a[0] < b[0] || (a[0] == b[0] && Less(a[1..], b[1..])))
  }

  lemma {:induction false} LessIrreflexive(a: Bytes)
    ensures !Less(a, a)
  {
    if a != [] {
      LessIrreflexive(a[1..]);
    }
  }

  lemma {:induction false} LessTransitive(a: Bytes, b: Bytes, c: Bytes)
    requires Less(a, b) && Less(b, c)
    ensures Less(a, c)
  {
    if a != [] && a[0] == b[0] == c[0] {
      LessTransitive(a[1..], b[1..], c[1..]);
    }
  }

  lemma {:induction false} LessTotal(a: Bytes, b: Bytes)
    ensures Less(a, b) || a == b || Less(b, a)
  {
    if a != [] && b != [] && a[0] == b[0] {
      LessTotal(a[1..], b[1..]);
      assert a == [a[0]] + a[1..] && b == [b[0]] + b[1..];
    }
  }

  lemma LessAsymmetric(a: Bytes, b: Bytes)
    requires Less(a, b)
    ensures a != b && !Less(b, a)
  {
    LessIrreflexive(a);
    if Less(b, a) {
      LessTransitive(a, b, a);
    }
  }

  /** The first differing byte decides. */
  lemma {:induction false} LessByFirstDifference(a: Bytes, b: Bytes, k: nat)
    requires k < |a| && k < |b| && a[..k] == b[..k] && a[k] < b[k]
    ensures Less(a, b)
  {
    if k > 0 {
      assert a[0] == a[..k][0] && b[0] == b[..k][0];
      assert a[1..][..k - 1] == a[..k][1..] && b[1..][..k - 1] == b[..k][1..];
      LessByFirstDifference(a[1..], b[1..], k - 1);
    }
  }

  lemma {:induction false} LessExtends(a: Bytes, b: Bytes, u: Bytes, v: Bytes)
    requires |a| == |b| && Less(a, b)
    ensures Less(a + u, b + v)
  {
    if a[0] == b[0] {
      LessExtends(a[1..], b[1..], u, v);
      assert (a + u)[1..] == a[1..] + u && (b + v)[1..] == b[1..] + v;
    }
  }

  ghost predicate Ascending(s: seq<Bytes>)
  {
    forall i, j :: 0 <= i < j < |s| ==> Less(s[i], s[j])
  }

  function Elements(s: seq<Bytes>): set<Bytes>
  {
    set x | x in s
  }

  lemma ElementsAppend(s: seq<Bytes>, k: Bytes)
    ensures Elements(s + [k]) == Elements(s) + {k}
  {
    assert forall x :: x in s + [k] <==> x in s || x == k;
  }

  lemma ElementsAt(s: seq<Bytes>, i: nat)
    requires i < |s|
    ensures s[i] in Elements(s)
  {
  }

  /** A strictly ascending listing of a set is unique, whatever produced it. */
  lemma {:induction false} AscendingUnique(s: seq<Bytes>, t: seq<Bytes>)
    requires Ascending(s) && Ascending(t) && Elements(s) == Elements(t)
    ensures s == t
  {
    assert s != [] ==> s[0] in Elements(s);
    assert t != [] ==> t[0] in Elements(t);
    if s != [] && t != [] {
      FirstIsLeast(s, t);
      FirstIsLeast(t, s);
      if s[0] != t[0] {
        LessAsymmetric(s[0], t[0]);
      }
      forall x ensures x in Elements(s[1..]) <==> x in Elements(t[1..]) {
        assert x in Elements(s) <==> x in Elements(t);
        TailElements(s, x);
        TailElements(t, x);
      }
      AscendingUnique(s[1..], t[1..]);
      assert s == [s[0]] + s[1..] && t == [t[0]] + t[1..];
    }
  }

  lemma TailElements(s: seq<Bytes>, x: Bytes)
    requires s != [] && Ascending(s)
    ensures x in s[1..] <==> x in s && x != s[0]
  {
    LessIrreflexive(s[0]);
    if x in s && x != s[0] {
      var i :| 0 <= i < |s| && s[i] == x;
      assert s[1..][i - 1] == x;
    }
    if x in s[1..] {
      var i :| 0 <= i < |s[1..]| && s[1..][i] == x;
      assert s[i + 1] == x && Less(s[0], s[i + 1]);
    }
  }

  lemma FirstIsLeast(s: seq<Bytes>, t: seq<Bytes>)
    requires Ascending(s) && s != [] && t != [] && Elements(s) == Elements(t)
    ensures s[0] == t[0] || Less(s[0], t[0])
  {
    assert t[0] in Elements(t);
    var i :| 0 <= i < |s| && s[i] == t[0];
  }

  ghost predicate IsLeast(m: Bytes, s: set<Bytes>)
  {
    m in s && forall x :: x in s ==> m == x || Less(m, x)
  }

  lemma {:induction false} LeastExists(s: set<Bytes>)
    requires s != {}
    ensures exists m :: IsLeast(m, s)
    decreases |s|
  {
    var a :| a in s;
    if s == {a} {
      assert IsLeast(a, s);
    } else {
      LeastExists(s - {a});
      var m :| IsLeast(m, s - {a});
      LessTotal(a, m);
      if Less(a, m) {
        forall x | x in s ensures a == x || Less(a, x) {
          if x != a && x != m {
            LessTransitive(a, m, x);
          }
        }
        assert IsLeast(a, s);
      } else {
        assert IsLeast(m, s);
      }
    }
  }

  lemma PutLeastFirst(m: Bytes, s: set<Bytes>, rest: seq<Bytes>)
    requires IsLeast(m, s) && Ascending(rest) && Elements(rest) == s - {m} && |rest| == |s| - 1
    ensures Ascending([m] + rest) && Elements([m] + rest) == s && |[m] + rest| == |s|
  {
    hide Less;
    forall i | 0 <= i < |rest| ensures Less(m, rest[i]) {
      assert rest[i] in Elements(rest);
    }
    forall x ensures x in Elements([m] + rest) <==> x in s {
      assert x in rest <==> x in Elements(rest);
    }
  }

  /** The ascending listing of a set. */
  ghost function Sorted(s: set<Bytes>): (r: seq<Bytes>)
    ensures Ascending(r) && Elements(r) == s && |r| == |s|
  {
    if s == {} then []
    else
      LeastExists(s);
      var m :| IsLeast(m, s);
      var rest := Sorted(s - {m});
      PutLeastFirst(m, s, rest);
      [m] + rest
  }

  /** One step of insertion: put a new key in its place. */
  function Insert(s: seq<Bytes>, k: Bytes): (r: seq<Bytes>)
    requires Ascending(s) && k !in s
    ensures Ascending(r) && Elements(r) == Elements(s) + {k}
  {
    if s == [] then [k]
    else if Less(k, s[0]) then
      assert forall j :: 0 <= j < |s| ==> Less(k, s[j]) by {
        forall j | 0 <= j < |s| ensures Less(k, s[j]) {
          if j > 0 { LessTransitive(k, s[0], s[j]); }
        }
      }
      [k] + s
    else
      LessTotal(k, s[0]);
      var r := Insert(s[1..], k);
      assert forall x :: x in r ==> x in Elements(r);
      assert forall j :: 0 <= j < |r| ==> Less(s[0], r[j]) by {
        forall j | 0 <= j < |r| ensures Less(s[0], r[j]) {
          assert r[j] in Elements(s[1..]) + {k};
        }
      }
      assert Elements(s) == {s[0]} + Elements(s[1..]);
      [s[0]] + r
  }

  /** The keys of a Go map, in whatever order ranging over it yields them. */
  method ListKeys(keys: set<Bytes>) returns (keysList: seq<Bytes>)
    ensures Elements(keysList) == keys
    ensures forall i, j :: 0 <= i < j < |keysList| ==> keysList[i] != keysList[j]
  {
    keysList := [];
    var left := keys;
    while left != {}
      invariant left <= keys && Elements(keysList) == keys - left
      invariant forall i, j :: 0 <= i < j < |keysList| ==> keysList[i] != keysList[j]
      decreases left
    {
      var k :| k in left;
      assert k !in Elements(keysList);
      ElementsAppend(keysList, k);
      keysList, left := keysList + [k], left - {k};
    }
  }

  /** slices.Sort on a list of distinct keys. */
  method SortKeys(keys: seq<Bytes>) returns (r: seq<Bytes>)
    requires forall i, j :: 0 <= i < j < |keys| ==> keys[i] != keys[j]
    ensures r == Sorted(Elements(keys))
  {
    r := [];
    for i := 0 to |keys|
      invariant Ascending(r) && Elements(r) == Elements(keys[..i])
    {
      assert keys[i] !in Elements(keys[..i]);
      r := Insert(r, keys[i]);
      assert keys[..i + 1] == keys[..i] + [keys[i]];
    }
    assert keys[..|keys|] == keys;
    AscendingUnique(r, Sorted(Elements(keys)));
  }
}
