/** Redis sorted sets: members with scores, ordered by score and then by member. */
module ZSets {
  import opened Common

  datatype Key = Key(name: string)
  type ZSet = map<Key, int>

  /** Members with equal scores are ordered as strings. */
  predicate StringLess(a: string, b: string) {
    if b == [] then false
    else if a == [] then true
    else a[0] < b[0] || (a[0] == b[0] && StringLess(a[1..], b[1..]))
  }

  predicate Before(z: ZSet, a: Key, b: Key)
    requires a in z && b in z
  {
    z[a] < z[b] || (z[a] == z[b] && StringLess(a.name, b.name))
  }

  lemma {:induction false} StringLessTotal(a: string, b: string)
    ensures StringLess(a, b) || a == b || StringLess(b, a)
    ensures !(StringLess(a, b) && StringLess(b, a)) && !StringLess(a, a)
  {
    if a == [] {
    } else {
      StringLessTotal(a[1..], a[1..]);
      if b != [] {
        StringLessTotal(a[1..], b[1..]);
        assert a == [a[0]] + a[1..] && b == [b[0]] + b[1..];
      }
    }
  }

  lemma {:induction false} StringLessTransitive(a: string, b: string, c: string)
    requires StringLess(a, b) && StringLess(b, c)
    ensures StringLess(a, c)
  {
    if a == [] || a[0] != b[0] || b[0] != c[0] {
    } else {
      StringLessTransitive(a[1..], b[1..], c[1..]);
    }
  }

  lemma BeforeTransitive(z: ZSet, a: Key, b: Key, c: Key)
    requires a in z && b in z && c in z && Before(z, a, b) && Before(z, b, c)
    ensures Before(z, a, c)
  {
    if z[a] == z[c] {
      StringLessTransitive(a.name, b.name, c.name);
    }
  }

  /** The members a range query up to now sees. */
  function Due(z: ZSet, now: int): set<Key> {
    set k | k in z && z[k] <= now
  }

  ghost predicate IsLeast(z: ZSet, s: set<Key>, m: Key)
    requires s <= z.Keys
  {
    m in s && forall x :: x in s && x != m ==> Before(z, m, x)
  }

  lemma {:induction false} LeastExists(z: ZSet, s: set<Key>)
    requires s != {} && s <= z.Keys
    ensures exists m :: IsLeast(z, s, m)
  {
    var x :| x in s;
    if s == {x} {
      assert IsLeast(z, s, x);
    } else {
      LeastExists(z, s - {x});
      var m :| IsLeast(z, s - {x}, m);
      StringLessTotal(m.name, x.name);
      if Before(z, m, x) {
        assert IsLeast(z, s, m);
      } else {
        forall y | y in s && y != x ensures Before(z, x, y) {
          if y != m {
            BeforeTransitive(z, x, m, y);
          }
        }
        assert IsLeast(z, s, x);
      }
    }
  }

  lemma LeastUnique(z: ZSet, s: set<Key>, a: Key, b: Key)
    requires s <= z.Keys && IsLeast(z, s, a) && IsLeast(z, s, b)
    ensures a == b
  {
    StringLessTotal(a.name, b.name);
  }

  ghost function Least(z: ZSet, s: set<Key>): (m: Key)
    requires s != {} && s <= z.Keys
    ensures IsLeast(z, s, m)
  {
    LeastExists(z, s);
    var m :| IsLeast(z, s, m);
    m
  }

  /** ZRANGEBYSCORE z -inf now LIMIT 0 limit: the first members in order. */
  ghost function Range(z: ZSet, now: int, limit: nat): (r: seq<Key>)
    ensures forall k :: k in r ==> k in Due(z, now)
    ensures forall i :: 0 <= i < |r| ==> r[i] in Due(z, now)
    ensures NoDup(r)
    decreases limit
  {
    var due := Due(z, now);
    if limit == 0 || due == {} then []
    else
      var m := Least(z, due);
      var rest := Range(z - {m}, now, limit - 1);
      assert forall i :: 0 <= i < |rest| ==> rest[i] in Due(z - {m}, now);
      [m] + rest
  }

  /** The reply has as many members as there are and the limit allows, in order, and none left behind
      comes before one that is in it. */
  lemma {:induction false} RangeIsFirst(z: ZSet, now: int, limit: nat)
    ensures var r, due := Range(z, now, limit), Due(z, now);
            && |r| == (if |due| < limit then |due| else limit)
            && (forall i, j :: 0 <= i < j < |r| ==> Before(z, r[i], r[j]))
            && (forall k, x :: k in r && x in due && x !in r ==> Before(z, k, x))
    decreases limit
  {
    var due := Due(z, now);
    if limit == 0 || due == {} {
    } else {
      var m := Least(z, due);
      var z', rest := z - {m}, Range(z - {m}, now, limit - 1);
      RangeIsFirst(z', now, limit - 1);
      assert Due(z', now) == due - {m};
      assert forall i :: 0 <= i < |rest| ==> rest[i] in due - {m};
      assert forall a, b :: a in z' && b in z' && Before(z', a, b) ==> Before(z, a, b);
    }
  }

  /** The query answers its least member first. */
  lemma RangeTakes(z: ZSet, now: int, limit: nat, m: Key)
    requires limit > 0 && IsLeast(z, Due(z, now), m)
    ensures Range(z, now, limit) == [m] + Range(z - {m}, now, limit - 1)
  {
    LeastUnique(z, Due(z, now), m, Least(z, Due(z, now)));
  }

  lemma RangeEnds(z: ZSet, now: int, limit: nat)
    requires limit == 0 || Due(z, now) == {}
    ensures Range(z, now, limit) == []
  {
  }

  method TakeLeast(z: ZSet, due: set<Key>) returns (m: Key)
    requires due != {} && due <= z.Keys
    ensures IsLeast(z, due, m)
  {
    LeastExists(z, due);
    m :| m in due && forall x :: x in due && x != m ==> Before(z, m, x);
  }

  /** The server's own evaluation of the query. */
  method ZRangeByScore(z: ZSet, now: int, limit: nat) returns (r: seq<Key>)
    ensures r == Range(z, now, limit)
  {
    hide Range, Before, IsLeast;
    r := [];
    var left, room := z, limit;
    while room > 0 && Due(left, now) != {}
      invariant r + Range(left, now, room) == Range(z, now, limit)
      decreases room
    {
      var m := TakeLeast(left, Due(left, now));
      RangeTakes(left, now, room, m);
      left, room, r := left - {m}, room - 1, r + [m];
    }
    RangeEnds(left, now, room);
  }
}
