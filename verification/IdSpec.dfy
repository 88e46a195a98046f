/** The sequence generator as values: the counter scripts, runs of calls on one key, and the printed IDs. */
module IdSpec {
  import opened Common
  import opened ZSets

  /** A Redis counter. deadline None is a key without a time to live. */
  datatype Counter = Counter(n: nat, deadline: Option<int>)

  type Slot = Option<Counter>

  /** now is the server's clock, start the configured or computed first number, expire the TTL in whole seconds. */
  datatype Call =
    | One(start: int, expire: int, now: int)
    | Many(count: nat, start: int, expire: int, now: int)
  {
    function Size(): nat {
      if One? then 1 else count
    }
  }

  predicate Alive(slot: Slot, now: int) {
    slot.Some? && (slot.value.deadline.None? || now < slot.value.deadline.value)
  }

  function SlotOf(redis: map<string, Counter>, key: string): Slot {
    if key in redis then Some(redis[key]) else None
  }

  function Range(from: int, n: nat): (r: seq<int>)
    ensures |r| == n && forall i :: 0 <= i < n ==> r[i] == from + i
  {
    seq(n, i => from + i)
  }

  /** The first number a call issues: the next one of a live key, else the start, at least 1. */
  function First(slot: Slot, c: Call): nat {
    if Alive(slot, c.now) then slot.value.n + 1 else if c.start > 1 then c.start else 1
  }

  /** SET with EX refuses a time to live below one second, and the script stops there. */
  predicate Fails(slot: Slot, c: Call) {
    !Alive(slot, c.now) && c.start > 1 && c.expire <= 0
  }

  function Numbers(slot: Slot, c: Call): seq<int> {
    if Fails(slot, c) then [] else Range(First(slot, c), c.Size())
  }

  /** What the call leaves. A fresh key gets its TTL from SET when the start exceeds 1, otherwise from EXPIRE,
      which deletes the key when the TTL is not positive and which only the single script sends. */
  function After(slot: Slot, c: Call): Slot {
    if Alive(slot, c.now) then Some(slot.value.(n := slot.value.n + c.Size()))
    else
      var last := First(slot, c) - 1 + c.Size();
      if c.start > 1 then (if c.expire <= 0 then None else Some(Counter(last, Some(c.now + c.expire))))
      else if c.Many? then Some(Counter(last, None))
      else if c.expire <= 0 then None
      else Some(Counter(last, Some(c.now + c.expire)))
  }

  function Put(redis: map<string, Counter>, key: string, slot: Slot): map<string, Counter> {
    if slot.Some? then redis[key := slot.value] else redis - {key}
  }

  /** How long a key lives: a call that finds it leaves its deadline alone; one that creates it gives it the time to
      live it was asked for, or none if it is a batch from a start of at most 1. */
  lemma KeyLifetime(slot: Slot, c: Call, later: int)
    ensures if Alive(slot, c.now) then After(slot, c).Some? && After(slot, c).value.deadline == slot.value.deadline
            else Alive(After(slot, c), later) <==>
                   (c.Many? && c.start <= 1) || (c.expire > 0 && later < c.now + c.expire)
  {
  }

  /** Other keys' counters are not touched. */
  lemma OtherKeysStay(redis: map<string, Counter>, key: string, slot: Slot, other: string)
    ensures SlotOf(Put(redis, key, slot), key) == slot
    ensures other != key ==> SlotOf(Put(redis, key, slot), other) == SlotOf(redis, other)
  {
  }

  /** All numbers a run of calls issues on one key, in order. */
  function Issued(slot: Slot, calls: seq<Call>): seq<int>
    decreases |calls|
  {
    if calls == [] then [] else Numbers(slot, calls[0]) + Issued(After(slot, calls[0]), calls[1..])
  }

  function Total(calls: seq<Call>): nat {
    if calls == [] then 0 else calls[0].Size() + Total(calls[1..])
  }

  // ---- Consecutive numbers ----

  /** The call creates the key with this number, for a time that SET accepts. */
  predicate Restarts(c: Call, next: int) {
    next == (if c.start > 1 then c.start else 1) && (c.start > 1 ==> c.expire > 0)
  }

  /** Each call finds the key before its deadline, or restarts it where the numbers have got to. */
  ghost predicate Seamless(slot: Slot, next: int, calls: seq<Call>)
    decreases |calls|
  {
    calls == [] ||
    (&& (Alive(slot, calls[0].now) || Restarts(calls[0], next))
     && Seamless(After(slot, calls[0]), next + calls[0].Size(), calls[1..]))
  }

  /** If the first call finds the key, this is the number due. */
  predicate IsDue(slot: Slot, next: int, calls: seq<Call>) {
    calls != [] && Alive(slot, calls[0].now) ==> slot.value.n + 1 == next
  }

  /** Any mix of single and batch calls issues consecutive numbers from the one due, without gap or repetition,
      exactly when every call finds the key alive or restarts it at the next number. */
  lemma {:induction false} ConsecutiveIffSeamless(slot: Slot, next: int, calls: seq<Call>)
    requires forall c :: c in calls ==> c.Size() >= 1
    ensures Issued(slot, calls) == Range(next, Total(calls))
            <==> IsDue(slot, next, calls) && Seamless(slot, next, calls)
    decreases |calls|
  {
    hide Fails, After, First, Numbers, Range, Issued, Seamless, IsDue, Alive, Restarts;
    Unfolded(slot, next, calls);
    if calls == [] {
    } else {
      var c, rest := calls[0], calls[1..];
      assert c in calls;
      FirstIsNext(slot, next, calls);
      ConsecutiveIffSeamless(After(slot, c), next + c.Size(), rest);
      IssuedAtMost(After(slot, c), rest);
      RangeSplits(next, c.Size(), Total(rest));
      NumbersFrom(slot, c, next);
      SamePair(Numbers(slot, c), Issued(After(slot, c), rest),
               Range(next, c.Size()), Range(next + c.Size(), Total(rest)));
    }
  }

  lemma Unfolded(slot: Slot, next: int, calls: seq<Call>)
    ensures calls == [] ==>
              Issued(slot, calls) == Range(next, 0) == [] && IsDue(slot, next, calls) && Seamless(slot, next, calls)
    ensures calls != [] ==>
              var c := calls[0];
              && Issued(slot, calls) == Numbers(slot, c) + Issued(After(slot, c), calls[1..])
              && (Seamless(slot, next, calls) <==>
                  && (Alive(slot, c.now) || Restarts(c, next))
                  && Seamless(After(slot, c), next + c.Size(), calls[1..]))
  {
  }

  /** What a call finds or restarts decides its first number, and with it which number is due after it. */
  lemma FirstIsNext(slot: Slot, next: int, calls: seq<Call>)
    requires calls != []
    ensures var c := calls[0];
            && (!Fails(slot, c) && First(slot, c) == next
                <==> IsDue(slot, next, calls) && (Alive(slot, c.now) || Restarts(c, next)))
            && (!Fails(slot, c) && First(slot, c) == next ==> IsDue(After(slot, c), next + c.Size(), calls[1..]))
  {
  }

  lemma NumbersFrom(slot: Slot, c: Call, next: int)
    requires c.Size() >= 1
    ensures Numbers(slot, c) == Range(next, c.Size()) <==> !Fails(slot, c) && First(slot, c) == next
    ensures |Numbers(slot, c)| <= c.Size()
  {
    assert Range(next, c.Size())[0] == next;
  }

  lemma SamePair(a: seq<int>, b: seq<int>, c: seq<int>, d: seq<int>)
    requires |a| <= |c| && |b| <= |d|
    ensures a + b == c + d <==> a == c && b == d
  {
    if a + b == c + d {
      assert |a| + |b| == |c| + |d|;
      assert a == (a + b)[..|a|] && b == (a + b)[|a|..] && c == (c + d)[..|c|] && d == (c + d)[|c|..];
    }
  }

  lemma RangeSplits(from: int, a: nat, b: nat)
    ensures Range(from, a + b) == Range(from, a) + Range(from + a, b)
  {
  }

  lemma {:induction false} IssuedAtMost(slot: Slot, calls: seq<Call>)
    ensures |Issued(slot, calls)| <= Total(calls)
    decreases |calls|
  {
    if calls == [] {
    } else {
      IssuedAtMost(After(slot, calls[0]), calls[1..]);
    }
  }

  /** A key holds its time to live from the call that created it. */
  ghost predicate Within(slot: Slot, calls: seq<Call>) {
    slot.Some? && forall c :: c in calls ==> Alive(slot, c.now)
  }

  lemma {:induction false} LiveKeyIsSeamless(slot: Slot, calls: seq<Call>)
    requires Within(slot, calls)
    ensures Seamless(slot, slot.value.n + 1, calls)
    decreases |calls|
  {
    if calls == [] {
    } else {
      assert calls[0] in calls;
      LiveKeyIsSeamless(After(slot, calls[0]), calls[1..]);
    }
  }

  /** The key a first call creates is still there at every later call. */
  ghost predicate Outlives(first: Call, rest: seq<Call>) {
    || (first.Many? && first.start <= 1)
    || (first.expire > 0 && forall c :: c in rest ==> c.now < first.now + first.expire)
  }

  /** From an absent or expired key on: while the TTL given to the first call lasts, and for ever if that was a
      batch starting at 1 or below, the numbers run on from max(start, 1). */
  lemma FreshRunIsConsecutive(slot: Slot, first: Call, rest: seq<Call>)
    requires !Alive(slot, first.now) && first.Size() >= 1 && forall c :: c in rest ==> c.Size() >= 1
    requires Outlives(first, rest)
    ensures Issued(slot, [first] + rest)
            == Range(if first.start > 1 then first.start else 1, first.Size() + Total(rest))
  {
    var calls := [first] + rest;
    assert calls[1..] == rest;
    LiveKeyIsSeamless(After(slot, first), rest);
    ConsecutiveIffSeamless(slot, First(slot, first), calls);
  }

  function Singles(start: int, expire: int, times: seq<int>): seq<Call> {
    if times == [] then [] else [One(start, expire, times[0])] + Singles(start, expire, times[1..])
  }

  /** A TTL below one second truncates to zero seconds. From a start above 1 nothing is ever issued; from a
      lower one, every single call issues 1. */
  lemma {:induction false} ZeroTTLRepeats(start: int, expire: int, times: seq<int>)
    requires expire <= 0
    ensures Issued(None, Singles(start, expire, times)) == if start > 1 then [] else seq(|times|, _ => 1)
  {
    if times == [] {
    } else {
      ZeroTTLRepeats(start, expire, times[1..]);
      var calls, c := Singles(start, expire, times), One(start, expire, times[0]);
      assert calls[0] == c && calls[1..] == Singles(start, expire, times[1..]);
      assert Numbers(None, c) == if start > 1 then [] else [1];
      assert [1] + seq(|times| - 1, _ => 1) == seq(|times|, _ => 1);
    }
  }

  // ---- Printing ----

  function Digit(d: nat): char
    requires d < 10
  {
    '0' + d as char
  }

  function Digits(n: nat): (s: string)
    ensures s != []
  {
    if n < 10 then [Digit(n)] else Digits(n / 10) + [Digit(n % 10)]
  }

  function Zeros(n: nat): (s: string)
    ensures |s| == n && forall i :: 0 <= i < n ==> s[i] == '0'
  {
    seq(n, _ => '0')
  }

  /** Printf's %0*d for a number that is not negative. */
  function Padded(n: nat, width: nat): string {
    var s := Digits(n);
    if |s| < width then Zeros(width - |s|) + s else s
  }

  /** The number a string of digits stands for. */
  function Value(s: string): nat {
    if s == [] then 0
    else
      var last := s[|s| - 1];
      10 * Value(s[..|s| - 1]) + (if '0' <= last <= '9' then (last - '0') as nat else 0)
  }

  function Pow10(k: nat): (p: nat)
    ensures p >= 1
  {
    if k == 0 then 1 else 10 * Pow10(k - 1)
  }

  lemma {:induction false} DigitsValue(n: nat)
    ensures Value(Digits(n)) == n
  {
    if n < 10 {
      assert [Digit(n)][..0] == [];
    } else {
      DigitsValue(n / 10);
      assert Digits(n)[..|Digits(n)| - 1] == Digits(n / 10);
    }
  }

  lemma {:induction false} ZerosValue(k: nat, s: string)
    ensures Value(Zeros(k) + s) == Value(s)
    decreases k + |s|
  {
    if s != [] {
      ZerosValue(k, s[..|s| - 1]);
      assert (Zeros(k) + s)[..k + |s| - 1] == Zeros(k) + s[..|s| - 1];
    } else if k > 0 {
      ZerosValue(k - 1, []);
      assert Zeros(k) + [] == Zeros(k) && (Zeros(k) + [])[..k - 1] == Zeros(k - 1) + [];
    }
  }

  /** Printing loses nothing, whatever the width. */
  lemma PaddedValue(n: nat, width: nat)
    ensures Value(Padded(n, width)) == n
  {
    DigitsValue(n);
    if |Digits(n)| < width {
      ZerosValue(width - |Digits(n)|, Digits(n));
    }
  }

  lemma {:induction false} DigitsLength(n: nat, k: nat)
    ensures |Digits(n)| <= k <==> k >= 1 && n < Pow10(k)
    decreases n
  {
    if k >= 2 && n >= 10 {
      DigitsLength(n / 10, k - 1);
    } else if k == 1 {
      assert Pow10(1) == 10;
    } else if k >= 2 {
      PowGrows(k);
    }
  }

  lemma {:induction false} PowGrows(k: nat)
    requires k >= 1
    ensures Pow10(k) >= 10
  {
  }

  /** The ID: prefix, time, separator, number, suffix. */
  datatype Layout = Layout(prefix: string, separator: string, suffix: string, width: nat)

  function FormatID(l: Layout, time: string, n: nat): string {
    l.prefix + (time + l.separator + Padded(n, l.width)) + l.suffix
  }

  lemma SamePieces(a: string, b: string, c: string, d: string)
    requires a + b == c + d && |a| == |c|
    ensures a == c && b == d
  {
    assert a == (a + b)[..|a|] && c == (c + d)[..|c|] && b == (a + b)[|a|..] && d == (c + d)[|c|..];
  }

  /** For time prefixes of equal length, an ID determines the time prefix and the number. */
  lemma FormatIsInjective(l: Layout, t: string, n: nat, u: string, m: nat)
    requires |t| == |u| && FormatID(l, t, n) == FormatID(l, u, m)
    ensures t == u && n == m
  {
    var a, b := t + l.separator + Padded(n, l.width), u + l.separator + Padded(m, l.width);
    SamePieces(l.prefix + a, l.suffix, l.prefix + b, l.suffix);
    SamePieces(l.prefix, a, l.prefix, b);
    SamePieces(t + l.separator, Padded(n, l.width), u + l.separator, Padded(m, l.width));
    SamePieces(t, l.separator, u, l.separator);
    PaddedValue(n, l.width);
    PaddedValue(m, l.width);
  }

  function IDs(l: Layout, time: string, numbers: seq<int>): (r: seq<string>)
    requires forall n :: n in numbers ==> n >= 0
    ensures |r| == |numbers|
  {
    seq(|numbers|, i requires 0 <= i < |numbers| => assert numbers[i] in numbers; FormatID(l, time, numbers[i]))
  }

  /** All IDs a fresh run issues for one time prefix are distinct while the key's time to live lasts. */
  lemma FreshRunIDsAreDistinct(l: Layout, time: string, slot: Slot, first: Call, rest: seq<Call>)
    requires !Alive(slot, first.now) && first.Size() >= 1 && forall c :: c in rest ==> c.Size() >= 1
    requires Outlives(first, rest)
    ensures forall n :: n in Issued(slot, [first] + rest) ==> n >= 1
    ensures NoDup(IDs(l, time, Issued(slot, [first] + rest)))
    ensures |IDs(l, time, Issued(slot, [first] + rest))| == first.Size() + Total(rest)
  {
    FreshRunIsConsecutive(slot, first, rest);
    var numbers := Issued(slot, [first] + rest);
    forall i, j | 0 <= i < j < |numbers| ensures FormatID(l, time, numbers[i]) != FormatID(l, time, numbers[j]) {
      if FormatID(l, time, numbers[i]) == FormatID(l, time, numbers[j]) {
        FormatIsInjective(l, time, numbers[i], time, numbers[j]);
      }
    }
  }

  // ---- Order ----

  lemma {:induction false} SamePrefixLess(p: string, a: string, b: string)
    ensures StringLess(p + a, p + b) <==> StringLess(a, b)
  {
    if p == [] {
      assert p + a == a && p + b == b;
    } else {
      assert (p + a)[1..] == p[1..] + a && (p + b)[1..] == p[1..] + b;
      SamePrefixLess(p[1..], a, b);
    }
  }

  ghost predicate AllDigits(s: string) {
    forall i :: 0 <= i < |s| ==> '0' <= s[i] <= '9'
  }

  lemma {:induction false} DigitsAreDigits(n: nat)
    ensures AllDigits(Digits(n))
  {
    if n < 10 {
    } else {
      DigitsAreDigits(n / 10);
    }
  }

  /** Digit strings of one length compare as the numbers they stand for. */
  lemma {:induction false} EqualLengthOrder(a: string, b: string)
    requires |a| == |b| && AllDigits(a) && AllDigits(b)
    ensures StringLess(a, b) <==> Value(a) < Value(b)
    decreases |a|
  {
    if a == [] {
    } else {
      var k := |a| - 1;
      var p, q, x, y := a[..k], b[..k], a[k], b[k];
      assert a == p + [x] && b == q + [y];
      EqualLengthOrder(p, q);
      EqualLengthOrder(q, p);
      if p == q {
        SamePrefixLess(p, [x], [y]);
      } else {
        StringLessTotal(p, q);
        if StringLess(p, q) {
          LessThenAnything(p, q, [x], [y]);
        } else {
          LessThenAnything(q, p, [y], [x]);
          StringLessTotal(a, b);
        }
      }
    }
  }

  lemma {:induction false} LessThenAnything(a: string, b: string, s: string, t: string)
    requires |a| == |b| && StringLess(a, b)
    ensures StringLess(a + s, b + t)
  {
    assert (a + s)[1..] == a[1..] + s && (b + t)[1..] == b[1..] + t;
    if a[0] != b[0] {
    } else {
      LessThenAnything(a[1..], b[1..], s, t);
    }
  }

  lemma PaddedShape(n: nat, width: nat)
    ensures AllDigits(Padded(n, width))
    ensures n < Pow10(width) ==> |Padded(n, width)| == width || width == 0
    ensures n >= Pow10(width) && width >= 1 ==> |Padded(n, width)| > width
  {
    DigitsAreDigits(n);
    DigitsLength(n, width);
  }

  /** No number but zero is printed with a zero in front. */
  lemma {:induction false} DigitsLead(n: nat)
    ensures n >= 1 ==> Digits(n)[0] != '0'
  {
    if n < 10 {
    } else {
      DigitsLead(n / 10);
    }
  }

  /** An ID is the prefix, the time, the separator, the number and the suffix, in this order. The number is a string
      of digits that reads back as n, filled up to the width with zeros and no further. */
  lemma IDParts(l: Layout, time: string, n: nat) returns (number: string)
    ensures FormatID(l, time, n) == l.prefix + time + l.separator + number + l.suffix
    ensures AllDigits(number) && Value(number) == n
    ensures number != [] && |number| >= l.width && (|number| > l.width && |number| > 1 ==> number[0] != '0')
  {
    number := Padded(n, l.width);
    PaddedShape(n, l.width);
    PaddedValue(n, l.width);
    DigitsLead(n);
  }

  /** Below 10^width, IDs of one time prefix sort as strings in the order of their numbers. */
  lemma IDsSortByNumber(l: Layout, time: string, n: nat, m: nat)
    requires n < m < Pow10(l.width)
    ensures StringLess(FormatID(l, time, n), FormatID(l, time, m))
  {
    var a, b := Padded(n, l.width), Padded(m, l.width);
    PaddedShape(n, l.width);
    PaddedShape(m, l.width);
    PaddedValue(n, l.width);
    PaddedValue(m, l.width);
    EqualLengthOrder(a, b);
    LessThenAnything(a, b, l.suffix, l.suffix);
    var head := l.prefix + time + l.separator;
    assert FormatID(l, time, n) == head + (a + l.suffix) && FormatID(l, time, m) == head + (b + l.suffix);
    SamePrefixLess(head, a + l.suffix, b + l.suffix);
  }

  /** The bound is sharp: at 10^width the order breaks for every width. */
  lemma OrderBreaksAtWidth(l: Layout, time: string)
    requires l.width >= 1
    ensures var n := Pow10(l.width);
            StringLess(FormatID(l, time, n), FormatID(l, time, n - 1))
  {
    var n := Pow10(l.width);
    PowGrows(l.width);
    var a, b := Padded(n, l.width), Padded(n - 1, l.width);
    Leading(l.width);
    var head := l.prefix + time + l.separator;
    assert FormatID(l, time, n) == head + (a + l.suffix) && FormatID(l, time, n - 1) == head + (b + l.suffix);
    assert (a + l.suffix)[0] == '1' && (b + l.suffix)[0] == '9';
    SamePrefixLess(head, a + l.suffix, b + l.suffix);
  }

  lemma {:induction false} Leading(width: nat)
    requires width >= 1
    ensures Digits(Pow10(width))[0] == '1'
    ensures Pow10(width) >= 1 && Digits(Pow10(width) - 1)[0] == '9' && |Digits(Pow10(width) - 1)| == width
    ensures |Digits(Pow10(width))| > width
  {
    if width == 1 {
      assert Pow10(1) == 10 && Digits(10) == Digits(1) + [Digit(0)];
    } else {
      var n := Pow10(width - 1);
      Leading(width - 1);
      PowGrows(width);
      PowGrows(width - 1);
      assert (10 * n - 1) / 10 == n - 1;
    }
  }
}
