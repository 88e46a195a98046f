/** Data shared by every component: byte strings, optional values and the cache's error values. */
module Common {

  type Byte = n: int | 0 <= n < 256

  /** The contents of a Go []byte. A parameter that may be nil is an Option<Bytes>. */
  type Bytes = seq<Byte>

  datatype Option<+T> = None | Some(value: T)

  datatype CacheError = ErrNotFound | ErrInvalidKey | ErrInvalidValue | ErrInvalidTTL | ErrClosed

  /** What a read returns: a value, or one of the errors. */
  datatype Answer<+T> = Hit(value: T) | Fail(error: CacheError)

  /** What a write returns. */
  datatype Status = Done | Refused(error: CacheError)

  /** What becomes of a request to Redis. Answered: executed, and the reply arrived. Unheard: executed, but the
      caller saw an error. Dropped: not executed, and the caller saw an error. */
  datatype Fate = Answered | Unheard | Dropped {
    predicate Executed() {
      !Dropped?
    }
  }

  function Pow2(k: nat): (p: nat)
    ensures p >= 1
  {
    if k == 0 then 1 else 2 * Pow2(k - 1)
  }

  ghost predicate NoDup<T>(s: seq<T>) {
    forall i, j :: 0 <= i < j < |s| ==> s[i] != s[j]
  }

  function RemoveAt<T>(s: seq<T>, i: nat): (r: seq<T>)
    requires i < |s|
    ensures |r| == |s| - 1
    ensures forall j :: 0 <= j < i ==> r[j] == s[j]
    ensures forall j :: i <= j < |r| ==> r[j] == s[j + 1]
  {
    s[..i] + s[i + 1..]
  }

  lemma RemoveUpdated<T>(s: seq<T>, i: nat, x: T)
    requires i < |s|
    ensures RemoveAt(s[i := x], i) == RemoveAt(s, i)
  {
  }

  ghost function ToSet<T>(s: seq<T>): set<T> {
    set x | x in s
  }

  /** A duplicate-free sequence has as many elements as its set. */
  lemma {:induction false} NoDupSize<T>(s: seq<T>)
    requires NoDup(s)
    ensures |ToSet(s)| == |s|
  {
    if s == [] {
    } else {
      var last := |s| - 1;
      NoDupSize(s[..last]);
      assert ToSet(s) == ToSet(s[..last]) + {s[last]};
    }
  }

  lemma {:induction false} SubsetSize<T>(a: set<T>, b: set<T>)
    requires a <= b
    ensures |a| <= |b|
  {
    if a == {} {
    } else {
      var x :| x in a;
      SubsetSize(a - {x}, b - {x});
    }
  }

  lemma SubsetSame<T>(a: set<T>, b: set<T>)
    requires a <= b && |a| == |b|
    ensures a == b
  {
    if x :| x in b && x !in a {
      SubsetSize(a, b - {x});
    }
  }
}
