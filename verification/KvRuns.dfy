/** The K-V cache on one node under any interleaving: any number of reads and writes, each advancing by one locked
    section, one Redis command or one call of the loader at a time. */
module KvRuns {
  import opened Common
  import opened KvSpec

  /** What a Set or Delete, of one key or many, does to its keys. */
  datatype Update<V> = Put(items: map<K, V>) | Remove(gone: set<K>) {
    function Keys(): set<K> {
      match this
      case Put(items) => items.Keys
      case Remove(gone) => gone
    }

    function OnMap(m: map<K, V>): map<K, V> {
      match this
      case Put(items) => m + items
      case Remove(gone) => m - gone
    }

    function OnKey(m: map<K, V>, k: K): map<K, V>
      requires k in Keys()
    {
      match this
      case Put(items) => m[k := items[k]]
      case Remove(_) => m - {k}
    }

    function OnHash(redis: map<K, string>, c: Codec<V>, applied: bool): map<K, string> {
      match this
      case Put(items) => Written(redis, c, items, applied)
      case Remove(gone) => if applied then redis - gone else redis
    }
  }

  /** A Get or GetMany: looking its keys up in the local map; filling the local map with what the hash had, still
      being the keys that neither had; storing what was loaded, in the local map and then in the hash; done. left
      is what remains to be put in the local map. */
  datatype Reader<V> =
    | Looking(todo: seq<K>, hit: map<K, V>, missed: seq<K>)
    | Filling(left: map<K, V>, hit: map<K, V>, still: seq<K>)
    | Storing(left: map<K, V>, loaded: map<K, V>, hit: map<K, V>)
    | Told(answer: Option<map<K, V>>)

  /** A write whose source update has taken place; todo is what remains to be done of the local map. */
  datatype Writer<V> = Writing(u: Update<V>, todo: set<K>) | Finished

  datatype World<V> = World(tiers: Tiers<V>, source: map<K, V>, readers: seq<Reader<V>>, writers: seq<Writer<V>>)

  datatype Event<V> =
    | Ask(keys: seq<K>)
    | Look(i: nat)                  // one key in the local map
    | Fetch(i: nat, down: bool)     // HGET or HMGET, or no request when nothing was missed
    | Fill(i: nat, k: K)            // one pair into the local map
    | Load(i: nat, fails: bool)     // the loader, or no call when the hash had the rest
    | Store(i: nat, applied: bool)  // the loaded pairs into the hash
    | Commit(u: Update<V>)          // the caller changes the source and calls Set or Delete
    | Apply(j: nat, k: K)           // one key of the local map
    | Send(j: nat, applied: bool)   // the write's script or HDEL
    | Invalidate(stale: set<K>)
    | Expire

  predicate Enabled<V>(w: World<V>, e: Event<V>) {
    match e
    case Look(i) => i < |w.readers| && w.readers[i].Looking? && w.readers[i].todo != []
    case Fetch(i, _) => i < |w.readers| && w.readers[i].Looking? && w.readers[i].todo == []
    case Fill(i, k) => i < |w.readers| && (w.readers[i].Filling? || w.readers[i].Storing?) && k in w.readers[i].left
    case Load(i, _) => i < |w.readers| && w.readers[i].Filling? && |w.readers[i].left| == 0
    case Store(i, _) => i < |w.readers| && w.readers[i].Storing? && |w.readers[i].left| == 0
    case Apply(j, k) => j < |w.writers| && w.writers[j].Writing? && k in w.writers[j].todo * w.writers[j].u.Keys()
    case Send(j, _) => j < |w.writers| && w.writers[j].Writing? && w.writers[j].todo == {}
    case _ => true
  }

  function Step<V>(w: World<V>, c: Codec<V>, e: Event<V>): World<V>
    requires Enabled(w, e)
  {
    var t := w.tiers;
    match e
    case Ask(keys) => w.(readers := w.readers + [Looking(keys, map[], [])])
    case Look(i) => w.(readers := w.readers[i := Looked(w.readers[i], t.local)])
    case Fetch(i, down) => w.(readers := w.readers[i := Fetched(w.readers[i], t.redis, c, down)])
    case Fill(i, k) =>
      var r := w.readers[i];
      w.(tiers := t.(local := t.local[k := r.left[k]]), readers := w.readers[i := r.(left := r.left - {k})])
    case Load(i, fails) => w.(readers := w.readers[i := Loaded(w.readers[i], w.source, fails)])
    case Store(i, applied) =>
      w.(tiers := t.(redis := Written(t.redis, c, w.readers[i].loaded, applied)),
         readers := w.readers[i := Told(Some(w.readers[i].hit))])
    case Commit(u) => w.(source := u.OnMap(w.source), writers := w.writers + [Writing(u, u.Keys())])
    case Apply(j, k) =>
      var wr := w.writers[j];
      w.(tiers := t.(local := wr.u.OnKey(t.local, k)), writers := w.writers[j := wr.(todo := wr.todo - {k})])
    case Send(j, applied) =>
      w.(tiers := t.(redis := w.writers[j].u.OnHash(t.redis, c, applied)), writers := w.writers[j := Finished])
    case Invalidate(stale) => w.(tiers := t.(local := t.local - stale))
    case Expire => w.(tiers := t.(redis := map[]))
  }

  function Looked<V>(r: Reader<V>, local: map<K, V>): Reader<V>
    requires r.Looking? && r.todo != []
  {
    var k := r.todo[0];
    if k in local then Looking(r.todo[1..], r.hit[k := local[k]], r.missed)
    else Looking(r.todo[1..], r.hit, r.missed + [k])
  }

  function Fetched<V>(r: Reader<V>, redis: map<K, string>, c: Codec<V>, down: bool): Reader<V>
    requires r.Looking?
  {
    if r.missed == [] then Told(Some(r.hit))
    else
      var seen := if down then map[] else Decoded(redis, c, r.missed);
      Filling(seen, r.hit + seen, Absent(r.missed, seen))
  }

  function Loaded<V>(r: Reader<V>, source: map<K, V>, fails: bool): Reader<V>
    requires r.Filling?
  {
    if r.still == [] then Told(Some(r.hit))
    else
      match LoaderOf(source, fails)(r.still)
      case None => Told(None)
      case Some(loaded) => Storing(loaded, loaded, r.hit + loaded)
  }

  // ---- Agreement of the keys nobody is writing ----

  predicate Writes<V>(wr: Writer<V>, k: K) {
    wr.Writing? && k in wr.u.Keys()
  }

  /** A write of k is in progress. */
  predicate Open<V>(w: World<V>, k: K) {
    exists j :: 0 <= j < |w.writers| && Writes(w.writers[j], k)
  }

  predicate OpenBut<V>(w: World<V>, j: nat, k: K) {
    exists l :: 0 <= l < |w.writers| && l != j && Writes(w.writers[l], k)
  }

  /** The source has this pair. */
  ghost predicate Current<V(!new)>(source: map<K, V>, k: K, v: V) {
    k in source && source[k] == v
  }

  ghost predicate LocalRight<V(!new)>(t: Tiers<V>, source: map<K, V>, k: K) {
    k in t.local ==> Current(source, k, t.local[k])
  }

  ghost predicate HashRight<V(!new)>(t: Tiers<V>, c: Codec<V>, source: map<K, V>, k: K) {
    k in t.redis ==> Honest(t.redis[k], c, source, k)
  }

  ghost predicate Right<V(!new)>(w: World<V>, c: Codec<V>, k: K) {
    LocalRight(w.tiers, w.source, k) && HashRight(w.tiers, c, w.source, k)
  }

  /** Of every key nobody is writing, the tiers say nothing the source does not say. */
  ghost predicate Settled<V(!new)>(w: World<V>, c: Codec<V>) {
    forall k :: !Open(w, k) ==> Right(w, c, k)
  }

  /** Every value around survives its encoding. */
  ghost predicate AllSafe<V(!new)>(w: World<V>, c: Codec<V>) {
    && SafeMap(c, w.source)
    && (forall i :: 0 <= i < |w.readers| && w.readers[i].Storing? ==> SafeMap(c, w.readers[i].loaded))
    && (forall j :: 0 <= j < |w.writers| && w.writers[j].Writing? && w.writers[j].u.Put? ==>
        SafeMap(c, w.writers[j].u.items))
  }

  ghost predicate SafeEvent<V(!new)>(e: Event<V>, c: Codec<V>) {
    e.Commit? && e.u.Put? ==> SafeMap(c, e.u.items)
  }

  /** The field of this pair, if it can be read, says what the source says. */
  ghost predicate StoresRight<V(!new)>(c: Codec<V>, source: map<K, V>, k: K, v: V) {
    c.enc(v).Some? && c.dec(c.enc(v).value).Some? ==> Current(source, k, v)
  }

  /** A write that ends leaves k right: nothing else was put in the local map since, and the hash got the source's
      value or has nothing else to be read. */
  ghost predicate EndsRight<V(!new)>(w: World<V>, c: Codec<V>, u: Update<V>, applied: bool, k: K)
    requires k in u.Keys()
  {
    && LocalRight(w.tiers, w.source, k)
    && if applied && u.Remove? then true
       else if applied && Encodable(c, u.items) then StoresRight(c, w.source, k, u.items[k])
       else HashRight(w.tiers, c, w.source, k)
  }

  /** What a step must not do to a key that nobody is writing, or that it is the last to write: put in a pair the
      source no longer has, or leave one. */
  ghost predicate Sound<V(!new)>(w: World<V>, c: Codec<V>, e: Event<V>)
    requires Enabled(w, e)
  {
    match e
    case Fill(i, k) => Open(w, k) || Current(w.source, k, w.readers[i].left[k])
    case Store(i, applied) =>
      applied && Encodable(c, w.readers[i].loaded) ==>
        forall k :: k in w.readers[i].loaded ==> Open(w, k) || StoresRight(c, w.source, k, w.readers[i].loaded[k])
    case Send(j, applied) =>
      var u := w.writers[j].u;
      forall k :: k in u.Keys() ==> OpenBut(w, j, k) || EndsRight(w, c, u, applied, k)
    case _ => true
  }

  lemma SafeStays<V(!new)>(w: World<V>, c: Codec<V>, e: Event<V>)
    requires AllSafe(w, c) && Enabled(w, e) && SafeEvent(e, c)
    ensures AllSafe(Step(w, c, e), c)
  {
  }

  /** Which keys are being written after a step. */
  lemma OpenAfter<V>(w: World<V>, c: Codec<V>, e: Event<V>, k: K)
    requires Enabled(w, e)
    ensures Open(Step(w, c, e), k)
            <==> if e.Commit? then Open(w, k) || k in e.u.Keys() else if e.Send? then OpenBut(w, e.j, k) else Open(w, k)
  {
    var w' := Step(w, c, e);
    if e.Commit? {
      assert w'.writers[|w.writers|] == Writing(e.u, e.u.Keys());
      assert forall j :: 0 <= j < |w.writers| ==> w'.writers[j] == w.writers[j];
    } else if e.Send? {
      assert forall j :: 0 <= j < |w.writers| && j != e.j ==> w'.writers[j] == w.writers[j];
    } else {
      assert |w'.writers| == |w.writers|;
      assert forall j :: 0 <= j < |w.writers| ==> (Writes(w'.writers[j], k) <==> Writes(w.writers[j], k));
    }
  }

  /** A step keeps the agreement exactly when it is sound. */
  lemma StepSettles<V(!new)>(w: World<V>, c: Codec<V>, e: Event<V>)
    requires Enabled(w, e) && AllSafe(w, c) && Settled(w, c)
    ensures Settled(Step(w, c, e), c) <==> Sound(w, c, e)
  {
    hide Right, Open, OpenBut, EndsRight;
    var w' := Step(w, c, e);
    if e.Fill? {
      FillSettles(w, c, e);
    } else if e.Store? {
      StoreSettles(w, c, e);
    } else if e.Send? {
      SendSettles(w, c, e);
    } else {
      forall k | !Open(w', k) ensures Right(w', c, k) {
        OpenAfter(w, c, e, k);
        QuietStep(w, c, e, k);
      }
    }
  }

  lemma QuietStep<V(!new)>(w: World<V>, c: Codec<V>, e: Event<V>, k: K)
    requires Enabled(w, e) && !e.Fill? && !e.Store? && !e.Send? && !Open(w, k) && !Open(Step(w, c, e), k)
    requires Right(w, c, k)
    ensures Right(Step(w, c, e), c, k)
  {
    OpenAfter(w, c, e, k);
    if e.Apply? {
      assert Writes(w.writers[e.j], e.k);
    }
  }

  lemma FillSettles<V(!new)>(w: World<V>, c: Codec<V>, e: Event<V>)
    requires Enabled(w, e) && Settled(w, c) && e.Fill?
    ensures Settled(Step(w, c, e), c) <==> Sound(w, c, e)
  {
    hide Open;
    var w' := Step(w, c, e);
    forall k ensures Open(w', k) <==> Open(w, k) {
      OpenAfter(w, c, e, k);
    }
    forall k | k != e.k && !Open(w, k) ensures Right(w', c, k) {
      assert Right(w, c, k);
    }
    assert !Open(w, e.k) ==> Right(w, c, e.k);
    assert Current(w.source, e.k, w.readers[e.i].left[e.k]) <==> LocalRight(w'.tiers, w.source, e.k);
  }

  lemma StoreSettles<V(!new)>(w: World<V>, c: Codec<V>, e: Event<V>)
    requires Enabled(w, e) && AllSafe(w, c) && Settled(w, c) && e.Store?
    ensures Settled(Step(w, c, e), c) <==> Sound(w, c, e)
  {
    hide Open, Right, StoresRight, AllSafe, Step, Written;
    var w', loaded := Step(w, c, e), w.readers[e.i].loaded;
    var stores := e.applied && Encodable(c, loaded);
    forall k
      ensures Open(w', k) <==> Open(w, k)
      ensures !Open(w, k) ==>
                (Right(w', c, k) <==> !(stores && k in loaded) || StoresRight(c, w.source, k, loaded[k]))
    {
      OpenAfter(w, c, e, k);
      if !Open(w, k) {
        StoreOnKey(w, c, e, k);
      }
    }
  }

  lemma StoreOnKey<V(!new)>(w: World<V>, c: Codec<V>, e: Event<V>, k: K)
    requires Enabled(w, e) && AllSafe(w, c) && e.Store? && Right(w, c, k)
    ensures var loaded := w.readers[e.i].loaded;
            Right(Step(w, c, e), c, k)
            <==> !(e.applied && Encodable(c, loaded) && k in loaded) || StoresRight(c, w.source, k, loaded[k])
  {
    var loaded := w.readers[e.i].loaded;
    if e.applied && Encodable(c, loaded) && k in loaded {
      FieldSays(c, w.source, k, loaded[k]);
    }
  }

  /** The field of a safe value is honest exactly when it cannot be read or the source has the value. */
  lemma FieldSays<V(!new)>(c: Codec<V>, source: map<K, V>, k: K, v: V)
    requires Safe(c, v) && c.enc(v).Some?
    ensures Honest(c.enc(v).value, c, source, k) <==> StoresRight(c, source, k, v)
  {
  }

  lemma SendSettles<V(!new)>(w: World<V>, c: Codec<V>, e: Event<V>)
    requires Enabled(w, e) && AllSafe(w, c) && Settled(w, c) && e.Send?
    ensures Settled(Step(w, c, e), c) <==> Sound(w, c, e)
  {
    hide Open, OpenBut;
    var w', u := Step(w, c, e), w.writers[e.j].u;
    forall k
      ensures Open(w', k) <==> OpenBut(w, e.j, k)
      ensures k !in u.Keys() && !OpenBut(w, e.j, k) ==> Right(w', c, k)
      ensures k in u.Keys() ==> (Right(w', c, k) <==> EndsRight(w, c, u, e.applied, k))
    {
      OpenAfter(w, c, e, k);
      SendOnKey(w, c, e, k);
    }
  }

  lemma SendOnKey<V(!new)>(w: World<V>, c: Codec<V>, e: Event<V>, k: K)
    requires Enabled(w, e) && AllSafe(w, c) && Settled(w, c) && e.Send?
    ensures var w', u := Step(w, c, e), w.writers[e.j].u;
            if k in u.Keys() then Right(w', c, k) <==> EndsRight(w, c, u, e.applied, k)
            else !OpenBut(w, e.j, k) ==> Right(w', c, k)
  {
    var u := w.writers[e.j].u;
    if k in u.Keys() && u.Put? && e.applied && Encodable(c, u.items) {
      FieldSays(c, w.source, k, u.items[k]);
    }
    if k !in u.Keys() && !OpenBut(w, e.j, k) {
      assert !Open(w, k);
    }
  }

  // ---- Whole runs ----

  /** The worlds passed through, and the events between them. */
  ghost predicate Path<V(!new)>(ws: seq<World<V>>, c: Codec<V>, events: seq<Event<V>>) {
    && |ws| == |events| + 1
    && forall n :: 0 <= n < |events| ==> Enabled(ws[n], events[n]) && ws[n + 1] == Step(ws[n], c, events[n])
  }

  /** Nobody is at work yet, what the hash still holds is right, and values survive their encoding. */
  ghost predicate Run<V(!new)>(ws: seq<World<V>>, c: Codec<V>, events: seq<Event<V>>) {
    && Path(ws, c, events)
    && ws[0].readers == [] && ws[0].writers == [] && SafeMap(c, ws[0].source) && Settled(ws[0], c)
    && forall n :: 0 <= n < |events| ==> SafeEvent(events[n], c)
  }

  lemma StepOf<V(!new)>(ws: seq<World<V>>, c: Codec<V>, events: seq<Event<V>>, n: nat)
    requires Path(ws, c, events) && n < |events|
    ensures |ws| == |events| + 1 && Enabled(ws[n], events[n]) && ws[n + 1] == Step(ws[n], c, events[n])
  {
  }

  lemma {:induction false} RunsStaySafe<V(!new)>(ws: seq<World<V>>, c: Codec<V>, events: seq<Event<V>>, n: nat)
    requires Run(ws, c, events) && n < |ws|
    ensures AllSafe(ws[n], c)
  {
    if n == 0 {
    } else {
      RunsStaySafe(ws, c, events, n - 1);
      SafeStays(ws[n - 1], c, events[n - 1]);
    }
  }

  lemma {:induction false} SoundRunsSettle<V(!new)>(ws: seq<World<V>>, c: Codec<V>, events: seq<Event<V>>, n: nat)
    requires Run(ws, c, events) && n < |ws|
    requires forall m :: 0 <= m < n ==> Sound(ws[m], c, events[m])
    ensures Settled(ws[n], c)
  {
    hide Settled, Sound, Step;
    if n == 0 {
    } else {
      SoundRunsSettle(ws, c, events, n - 1);
      RunsStaySafe(ws, c, events, n - 1);
      StepSettles(ws[n - 1], c, events[n - 1]);
    }
  }

  /** Over every run, the tiers agree all along with the source on the keys nobody is writing exactly when every
      step is sound. */
  lemma RunsAgree<V(!new)>(ws: seq<World<V>>, c: Codec<V>, events: seq<Event<V>>)
    requires Run(ws, c, events)
    ensures (forall n :: 0 <= n < |ws| ==> Settled(ws[n], c))
            <==> forall n :: 0 <= n < |events| ==> Sound(ws[n], c, events[n])
  {
    hide Settled, Sound, Step, AllSafe;
    if forall n :: 0 <= n < |ws| ==> Settled(ws[n], c) {
      forall n | 0 <= n < |events| ensures Sound(ws[n], c, events[n]) {
        RunsStaySafe(ws, c, events, n);
        assert Settled(ws[n + 1], c);
        StepSettles(ws[n], c, events[n]);
      }
    } else if forall n :: 0 <= n < |events| ==> Sound(ws[n], c, events[n]) {
      forall n | 0 <= n < |ws| ensures Settled(ws[n], c) {
        SoundRunsSettle(ws, c, events, n);
      }
    }
  }

  // ---- What reads answer ----

  ghost predicate HasRight<V(!new)>(m: map<K, V>, source: map<K, V>, k: K) {
    k in m ==> Current(source, k, m[k])
  }

  /** What a read is about to put in the tiers under k is what the source has. */
  ghost predicate Carries<V(!new)>(r: Reader<V>, source: map<K, V>, k: K) {
    match r
    case Filling(left, _, _) => HasRight(left, source, k)
    case Storing(left, loaded, _) => HasRight(left, source, k) && HasRight(loaded, source, k)
    case _ => true
  }

  /** And what it answers about k will be what the source has. */
  ghost predicate Tells<V(!new)>(r: Reader<V>, source: map<K, V>, k: K) {
    match r
    case Looking(todo, hit, missed) => HasRight(hit, source, k) && (k in todo || k in missed || k in hit)
    case Filling(_, hit, still) => HasRight(hit, source, k) && (k in still || k in hit)
    case Storing(_, _, hit) => HasRight(hit, source, k) && (k in source ==> k in hit)
    case Told(answer) => answer.Some? ==> HasRight(answer.value, source, k) && (k in source ==> k in answer.value)
  }

  ghost predicate Quiet<V(!new)>(ws: seq<World<V>>, k: K, a: nat, n: nat) {
    forall m :: a <= m <= n && m < |ws| ==> !Open(ws[m], k)
  }

  lemma QuietSource<V(!new)>(w: World<V>, c: Codec<V>, e: Event<V>, k: K)
    requires Enabled(w, e) && !Open(Step(w, c, e), k)
    ensures var source := Step(w, c, e).source;
            (k in source <==> k in w.source) && (k in source ==> source[k] == w.source[k])
  {
    OpenAfter(w, c, e, k);
  }

  lemma StepCarries<V(!new)>(w: World<V>, c: Codec<V>, e: Event<V>, i: nat, k: K)
    requires Enabled(w, e) && i < |w.readers| && !Open(Step(w, c, e), k)
    requires Carries(w.readers[i], w.source, k)
    requires e.Fetch? && e.i == i ==> Right(w, c, k)
    ensures Carries(Step(w, c, e).readers[i], Step(w, c, e).source, k)
  {
    hide Open, Fetched, Loaded, Right;
    QuietSource(w, c, e, k);
    if (e.Fetch? || e.Load?) && e.i == i {
      TakenCarries(w, c, e, k);
    }
  }

  /** What was fetched or loaded just now is right. */
  lemma TakenCarries<V(!new)>(w: World<V>, c: Codec<V>, e: Event<V>, k: K)
    requires Enabled(w, e) && (e.Load? || (e.Fetch? && Right(w, c, k)))
    ensures Step(w, c, e).source == w.source && e.i < |Step(w, c, e).readers|
    ensures Carries(Step(w, c, e).readers[e.i], w.source, k)
  {
    var r := w.readers[e.i];
    if e.Load? && r.still != [] && !e.fails {
      assert LoaderOf(w.source, e.fails)(r.still) == Some(Restrict(w.source, r.still));
    }
  }

  lemma StepTells<V(!new)>(w: World<V>, c: Codec<V>, e: Event<V>, i: nat, k: K)
    requires Enabled(w, e) && i < |w.readers| && !Open(Step(w, c, e), k) && Right(w, c, k)
    requires Tells(w.readers[i], w.source, k)
    ensures Tells(Step(w, c, e).readers[i], Step(w, c, e).source, k)
  {
    hide Open, Right, Looked, Fetched, Loaded;
    QuietSource(w, c, e, k);
    if e.Look? && e.i == i {
      LookTells(w, c, w.readers[i], k);
    } else if e.Fetch? && e.i == i {
      FetchTells(w, c, w.readers[i], e.down, k);
    } else if e.Load? && e.i == i {
      LoadTells(w.readers[i], w.source, e.fails, k);
    }
  }

  lemma LookTells<V(!new)>(w: World<V>, c: Codec<V>, r: Reader<V>, k: K)
    requires r.Looking? && r.todo != [] && Tells(r, w.source, k) && Right(w, c, k)
    ensures Tells(Looked(r, w.tiers.local), w.source, k)
  {
  }

  lemma FetchTells<V(!new)>(w: World<V>, c: Codec<V>, r: Reader<V>, down: bool, k: K)
    requires r.Looking? && r.todo == [] && Tells(r, w.source, k) && Right(w, c, k)
    ensures Tells(Fetched(r, w.tiers.redis, c, down), w.source, k)
  {
  }

  lemma LoadTells<V(!new)>(r: Reader<V>, source: map<K, V>, fails: bool, k: K)
    requires r.Filling? && Tells(r, source, k)
    ensures Tells(Loaded(r, source, fails), source, k)
  {
    assert fails || LoaderOf(source, fails)(r.still) == Some(Restrict(source, r.still));
  }

  /** All a read works with are the keys it was asked for. */
  ghost predicate Within<V(!new)>(r: Reader<V>, keys: seq<K>) {
    match r
    case Looking(todo, hit, missed) =>
      forall k :: k in todo || k in hit || k in missed ==> k in keys
    case Filling(_, hit, still) => forall k :: k in hit || k in still ==> k in keys
    case Storing(_, _, hit) => forall k :: k in hit ==> k in keys
    case Told(answer) => answer.Some? ==> forall k :: k in answer.value ==> k in keys
  }

  lemma StepWithin<V(!new)>(w: World<V>, c: Codec<V>, e: Event<V>, i: nat, keys: seq<K>)
    requires Enabled(w, e) && i < |w.readers| && Within(w.readers[i], keys)
    ensures i < |Step(w, c, e).readers| && Within(Step(w, c, e).readers[i], keys)
  {
    var r := w.readers[i];
    if e.Load? && e.i == i && r.still != [] && !e.fails {
      assert LoaderOf(w.source, e.fails)(r.still) == Some(Restrict(w.source, r.still));
    }
  }

  lemma {:induction false} ReadsTellOf<V(!new)>(ws: seq<World<V>>, c: Codec<V>, events: seq<Event<V>>, a: nat, n: nat,
                                                i: nat, keys: seq<K>, k: K)
    requires Path(ws, c, events) && a < n <= |events| && events[a] == Ask(keys) && i == |ws[a].readers|
    requires k in keys ==> Quiet(ws, k, a + 1, n) && forall m :: a <= m < n ==> Settled(ws[m], c)
    ensures i < |ws[n].readers| && Within(ws[n].readers[i], keys)
    ensures k in keys ==> Tells(ws[n].readers[i], ws[n].source, k)
    decreases n
  {
    hide Settled, Right, Step, Open, Tells, Within;
    StepOf(ws, c, events, n - 1);
    if n == a + 1 {
      AskTells(ws[a], c, keys, k);
    } else {
      ReadsTellOf(ws, c, events, a, n - 1, i, keys, k);
      StepWithin(ws[n - 1], c, events[n - 1], i, keys);
      if k in keys {
        SettledAt(ws[n - 1], c, k);
        StepTells(ws[n - 1], c, events[n - 1], i, k);
      }
    }
  }

  lemma AskTells<V(!new)>(w: World<V>, c: Codec<V>, keys: seq<K>, k: K)
    ensures var w', i := Step(w, c, Ask(keys)), |w.readers|;
            && i < |w'.readers| && Within(w'.readers[i], keys)
            && (k in keys ==> Tells(w'.readers[i], w'.source, k))
  {
  }

  lemma SettledAt<V(!new)>(w: World<V>, c: Codec<V>, k: K)
    requires Settled(w, c) && !Open(w, k)
    ensures Right(w, c, k)
  {
  }

  /** A read whose keys nobody was writing while it went on answers exactly what the source has, unless its
      loader failed: whatever other reads and writes did in the meantime, as long as their steps were sound. */
  lemma QuietReadsTellTheSource<V(!new)>(ws: seq<World<V>>, c: Codec<V>, events: seq<Event<V>>, a: nat, n: nat, i: nat,
                                         keys: seq<K>)
    requires Run(ws, c, events) && a < n <= |events| && events[a] == Ask(keys) && i == |ws[a].readers|
    requires forall k :: k in keys ==> Quiet(ws, k, a + 1, n)
    requires forall m :: 0 <= m < n ==> Sound(ws[m], c, events[m])
    ensures i < |ws[n].readers|
    ensures ws[n].readers[i].Told? && ws[n].readers[i].answer.Some? ==>
              ws[n].readers[i].answer.value == Restrict(ws[n].source, keys)
  {
    hide Sound, Settled, Step, Quiet;
    forall m | 0 <= m < n ensures Settled(ws[m], c) {
      SoundRunsSettle(ws, c, events, m);
    }
    ReadsTellOf(ws, c, events, a, n, i, keys, 0);
    forall k | k in keys ensures Tells(ws[n].readers[i], ws[n].source, k) {
      ReadsTellOf(ws, c, events, a, n, i, keys, k);
    }
  }

  // ---- Where soundness comes from ----

  /** A read's pair was loaded, or fetched from the hash while nobody was writing the key: putting it into the
      tiers is sound for as long as nobody has written the key since. */
  lemma {:induction false} PromptFillsAreSound<V(!new)>(ws: seq<World<V>>, c: Codec<V>, events: seq<Event<V>>, a: nat,
                                                        n: nat, i: nat, k: K)
    requires Path(ws, c, events) && a < n <= |events| && Quiet(ws, k, a + 1, n)
    requires events[a].Load? || (events[a].Fetch? && !Open(ws[a], k) && Settled(ws[a], c))
    requires i == events[a].i
    ensures i < |ws[n].readers| && !ws[n].readers[i].Looking? && Carries(ws[n].readers[i], ws[n].source, k)
    ensures n < |events| && events[n] == Fill(i, k) ==> Sound(ws[n], c, events[n])
    ensures n < |events| && events[n].Store? && events[n].i == i && k in ws[n].readers[i].loaded ==>
              StoresRight(c, ws[n].source, k, ws[n].readers[i].loaded[k])
    decreases n
  {
    hide Settled, Right, Step, Open;
    StepOf(ws, c, events, n - 1);
    if n == a + 1 {
      if !Open(ws[a], k) && Settled(ws[a], c) {
        SettledAt(ws[a], c, k);
      }
      TakenCarries(ws[a], c, events[a], k);
      TakenOnce(ws[a], c, events[a], i);
    } else {
      PromptFillsAreSound(ws, c, events, a, n - 1, i, k);
      TakenOnce(ws[n - 1], c, events[n - 1], i);
      StepCarries(ws[n - 1], c, events[n - 1], i, k);
    }
  }

  lemma TakenOnce<V(!new)>(w: World<V>, c: Codec<V>, e: Event<V>, i: nat)
    requires Enabled(w, e) && i < |w.readers|
    requires !w.readers[i].Looking? || (e.Fetch? && e.i == i)
    ensures i < |Step(w, c, e).readers| && !Step(w, c, e).readers[i].Looking?
  {
  }

  /** What a write in progress has made of one of its keys so far. */
  ghost predicate Done<V(!new)>(w: World<V>, j: nat, u: Update<V>, k: K) {
    && j < |w.writers| && w.writers[j].Writing? && w.writers[j].u == u && k in u.Keys()
    && (if u.Put? then Current(w.source, k, u.items[k]) else k !in w.source)
    && (k in w.writers[j].todo || LocalRight(w.tiers, w.source, k))
  }

  lemma StepDone<V(!new)>(w: World<V>, c: Codec<V>, e: Event<V>, j: nat, u: Update<V>, k: K)
    requires Enabled(w, e) && Done(w, j, u, k) && !OpenBut(Step(w, c, e), j, k) && !(e.Send? && e.j == j)
    requires e.Fill? && e.k == k ==> k in w.writers[j].todo
    ensures Done(Step(w, c, e), j, u, k)
  {
    var w' := Step(w, c, e);
    if e.Commit? {
      assert w'.writers[|w.writers|] == Writing(e.u, e.u.Keys());
      assert k !in e.u.Keys();
    } else if e.Apply? && e.j != j {
      assert w'.writers[e.j].u == w.writers[e.j].u && !Writes(w'.writers[e.j], k);
    }
  }

  lemma {:induction false} LoneWriteDone<V(!new)>(ws: seq<World<V>>, c: Codec<V>, events: seq<Event<V>>, a: nat, n: nat,
                                                  j: nat, u: Update<V>, k: K)
    requires Path(ws, c, events) && a < n <= |events| && events[a] == Commit(u) && j == |ws[a].writers| && k in u.Keys()
    requires forall m :: a < m <= n ==> !OpenBut(ws[m], j, k)
    requires forall m :: a < m < n ==> !(events[m].Send? && events[m].j == j)
    requires forall m :: a < m < n && events[m].Fill? && events[m].k == k ==>
               j < |ws[m].writers| && ws[m].writers[j].Writing? && k in ws[m].writers[j].todo
    ensures Done(ws[n], j, u, k)
    decreases n
  {
    hide Step, OpenBut, Done;
    StepOf(ws, c, events, n - 1);
    if n == a + 1 {
      CommitDone(ws[a], c, u, k);
    } else {
      LoneWriteDone(ws, c, events, a, n - 1, j, u, k);
      StepDone(ws[n - 1], c, events[n - 1], j, u, k);
    }
  }

  lemma CommitDone<V(!new)>(w: World<V>, c: Codec<V>, u: Update<V>, k: K)
    requires k in u.Keys()
    ensures Done(Step(w, c, Commit(u)), |w.writers|, u, k)
  {
  }

  /** A write ends right on a key if it was the only one writing it, no read filled the local map under it after
      the write itself had, and its request was executed (with values that encode). */
  lemma LoneWritesAreSound<V(!new)>(ws: seq<World<V>>, c: Codec<V>, events: seq<Event<V>>, a: nat, n: nat, j: nat,
                                    u: Update<V>, k: K)
    requires Path(ws, c, events) && a < n < |events| && events[a] == Commit(u) && j == |ws[a].writers| && k in u.Keys()
    requires forall m :: a < m <= n ==> !OpenBut(ws[m], j, k)
    requires forall m :: a < m < n ==> !(events[m].Send? && events[m].j == j)
    requires forall m :: a < m < n && events[m].Fill? && events[m].k == k ==>
               j < |ws[m].writers| && ws[m].writers[j].Writing? && k in ws[m].writers[j].todo
    requires events[n] == Send(j, true) && (u.Put? ==> Encodable(c, u.items))
    ensures EndsRight(ws[n], c, u, true, k)
  {
    LoneWriteDone(ws, c, events, a, n, j, u, k);
    assert Enabled(ws[n], events[n]);
  }

  // ---- What an unsound step leads to ----

  /** Once a key that nobody is writing is wrong in a tier, a read of it answers something else than the source,
      at once or after the local map has lost it. */
  lemma WrongShows<V(!new)>(w: World<V>, c: Codec<V>, k: K)
    requires !Right(w, c, k)
    ensures var t, load := w.tiers, LoaderOf(w.source, false);
            || ManyAnswer(t, c, [k], false, load) != Some(Restrict(w.source, [k]))
            || ManyAnswer(t.(local := t.local - {k}), c, [k], false, load) != Some(Restrict(w.source, [k]))
  {
    hide ManyAnswer, AfterMany, Restrict, AfterGet;
    var t, load := w.tiers, LoaderOf(w.source, false);
    AbsentOne(k, w.source);
    GetIsGetManyOfOne(t, c, k, false, load, true);
    GetIsGetManyOfOne(t.(local := t.local - {k}), c, k, false, load, true);
  }

  // ---- Operations with nothing in between ----

  lemma PathSize<V(!new)>(ws: seq<World<V>>, c: Codec<V>, events: seq<Event<V>>)
    requires Path(ws, c, events)
    ensures |ws| == |events| + 1
  {
  }

  lemma PathNext<V(!new)>(ws: seq<World<V>>, c: Codec<V>, events: seq<Event<V>>, e: Event<V>)
    returns (ws': seq<World<V>>, events': seq<Event<V>>)
    requires Path(ws, c, events) && Enabled(ws[|events|], e)
    ensures ws' == ws + [Step(ws[|events|], c, e)] && events' == events + [e] && Path(ws', c, events')
    ensures |ws'| == |events'| + 1
  {
    hide Step, Enabled;
    ws', events' := ws + [Step(ws[|events|], c, e)], events + [e];
    forall n | 0 <= n < |events'| ensures Enabled(ws'[n], events'[n]) && ws'[n + 1] == Step(ws'[n], c, events'[n]) {
      assert n < |events| ==> events'[n] == events[n] && ws'[n] == ws[n] && ws'[n + 1] == ws[n + 1];
    }
  }

  lemma {:induction false} LookAll<V(!new)>(ws: seq<World<V>>, c: Codec<V>, events: seq<Event<V>>, i: nat)
    returns (ws': seq<World<V>>, events': seq<Event<V>>)
    requires Path(ws, c, events)
    requires var w := ws[|events|]; i < |w.readers| && w.readers[i].Looking?
    ensures Path(ws', c, events') && ws <= ws' && events <= events' && |ws'| == |events'| + 1
    ensures var w, w' := ws[|events|], ws'[|events'|];
            var r := w.readers[i];
            w' == w.(readers := w.readers[i := Looking([], r.hit + Restrict(w.tiers.local, r.todo),
                                                       r.missed + Absent(r.todo, w.tiers.local))])
    decreases |ws[|events|].readers[i].todo|
  {
    hide Restrict, Absent, Path;
    PathSize(ws, c, events);
    ws', events' := ws, events;
    var w := ws[|events|];
    var r := w.readers[i];
    if r.todo == [] {
      LookedNothing(r, w.tiers.local);
      assert w.readers[i := r] == w.readers;
    } else {
      ws', events' := PathNext(ws, c, events, Look(i));
      ws', events' := LookAll(ws', c, events', i);
      LookedOne(r, w.tiers.local);
    }
  }

  lemma LookedNothing<V(!new)>(r: Reader<V>, local: map<K, V>)
    requires r.Looking? && r.todo == []
    ensures Looking([], r.hit + Restrict(local, r.todo), r.missed + Absent(r.todo, local)) == r
  {
  }

  lemma LookedOne<V(!new)>(r: Reader<V>, local: map<K, V>)
    requires r.Looking? && r.todo != []
    ensures var r' := Looked(r, local);
            && r.hit + Restrict(local, r.todo) == r'.hit + Restrict(local, r'.todo)
            && r.missed + Absent(r.todo, local) == r'.missed + Absent(r'.todo, local)
  {
    hide Restrict, Absent;
    RestrictCons(local, r.todo);
    AbsentCons(local, r.todo);
    var k, rest := r.todo[0], Restrict(local, r.todo[1..]);
    if k in local {
      UpdateFirst(r.hit, rest, k, local[k]);
    } else {
      assert r.missed + ([k] + Absent(r.todo[1..], local)) == r.missed + [k] + Absent(r.todo[1..], local);
    }
  }

  lemma AbsentCons<V(!new)>(local: map<K, V>, keys: seq<K>)
    requires keys != []
    ensures Absent(keys, local) == (if keys[0] in local then [] else [keys[0]]) + Absent(keys[1..], local)
  {
  }

  lemma UpdateFirst<V(!new)>(hit: map<K, V>, rest: map<K, V>, k: K, v: V)
    requires k in rest ==> rest[k] == v
    ensures hit + rest[k := v] == hit[k := v] + rest
  {
  }

  lemma RestrictCons<V(!new)>(local: map<K, V>, keys: seq<K>)
    requires keys != []
    ensures var k, rest := keys[0], Restrict(local, keys[1..]);
            && Restrict(local, keys) == (if k in local then rest[k := local[k]] else rest)
            && (k in rest ==> rest[k] == local[k])
  {
  }

  /** The world once reader i has filled the local map. */
  function Filled<V>(w: World<V>, i: nat): World<V>
    requires i < |w.readers| && (w.readers[i].Filling? || w.readers[i].Storing?)
  {
    var r := w.readers[i];
    w.(tiers := w.tiers.(local := w.tiers.local + r.left), readers := w.readers[i := r.(left := map[])])
  }

  lemma {:induction false} FillAll<V(!new)>(ws: seq<World<V>>, c: Codec<V>, events: seq<Event<V>>, i: nat)
    returns (ws': seq<World<V>>, events': seq<Event<V>>)
    requires Path(ws, c, events)
    requires var w := ws[|events|]; i < |w.readers| && (w.readers[i].Filling? || w.readers[i].Storing?)
    ensures Path(ws', c, events') && ws <= ws' && events <= events' && |ws'| == |events'| + 1
    ensures ws'[|events'|] == Filled(ws[|events|], i)
    decreases |ws[|events|].readers[i].left|
  {
    hide Path, Filled, Step;
    PathSize(ws, c, events);
    ws', events' := ws, events;
    var w := ws[|events|];
    if w.readers[i].left == map[] {
      FilledNothing(w, i);
    } else {
      var k :| k in w.readers[i].left;
      ws', events' := PathNext(ws, c, events, Fill(i, k));
      FilledOne(w, c, i, k);
      ws', events' := FillAll(ws', c, events', i);
    }
  }

  lemma FilledNothing<V(!new)>(w: World<V>, i: nat)
    requires i < |w.readers| && (w.readers[i].Filling? || w.readers[i].Storing?) && w.readers[i].left == map[]
    ensures Filled(w, i) == w
  {
    PlusNothing(w.tiers.local);
    assert w.readers[i].(left := map[]) == w.readers[i];
    assert w.readers[i := w.readers[i]] == w.readers;
  }

  lemma FilledOne<V(!new)>(w: World<V>, c: Codec<V>, i: nat, k: K)
    requires Enabled(w, Fill(i, k))
    ensures var w' := Step(w, c, Fill(i, k));
            && i < |w'.readers| && (w'.readers[i].Filling? || w'.readers[i].Storing?)
            && |w'.readers[i].left| < |w.readers[i].left| && Filled(w', i) == Filled(w, i)
  {
    OnePairLess(w.tiers.local, w.readers[i].left, k);
    var r := w.readers[i].(left := map[]);
    assert Step(w, c, Fill(i, k)).readers[i := r] == w.readers[i := r];
  }

  lemma OnePairLess<V(!new)>(local: map<K, V>, left: map<K, V>, k: K)
    requires k in left
    ensures local[k := left[k]] + (left - {k}) == local + left && |left - {k}| < |left|
  {
    assert (left - {k}).Keys == left.Keys - {k};
  }

  /** What a read loads that found this much. */
  function LoadedOf<V>(source: map<K, V>, still: seq<K>, fails: bool): map<K, V> {
    if still == [] || fails then map[] else Restrict(source, still)
  }

  /** The rest of a read, once it has what the hash had. */
  lemma FinishRead<V(!new)>(ws: seq<World<V>>, c: Codec<V>, events: seq<Event<V>>, i: nat, fails: bool, applied: bool)
    returns (ws': seq<World<V>>, events': seq<Event<V>>)
    requires Path(ws, c, events)
    requires var w := ws[|events|]; i < |w.readers| && w.readers[i].Filling?
    ensures Path(ws', c, events') && ws <= ws' && events <= events' && |ws'| == |events'| + 1
    ensures var w, w' := ws[|events|], ws'[|events'|];
            var r := w.readers[i];
            var loaded := LoadedOf(w.source, r.still, fails);
            && w'.tiers == Tiers(w.tiers.local + r.left + loaded, Written(w.tiers.redis, c, loaded, applied))
            && w'.readers == w.readers[i := Told(if r.still != [] && fails then None else Some(r.hit + loaded))]
            && w'.source == w.source && w'.writers == w.writers
  {
    hide Path, Restrict, Written, Step;
    PathSize(ws, c, events);
    var w, r := ws[|events|], ws[|events|].readers[i];
    ws', events' := FillAll(ws, c, events, i);
    NothingMore(w.tiers.local + r.left, w.tiers.redis, c, r.hit, applied);
    var w1 := Filled(w, i);
    ws', events' := PathNext(ws', c, events', Load(i, fails));
    LoadStep(w1, c, i, fails);
    if r.still != [] && !fails {
      ws', events' := FinishStoring(ws', c, events', i, applied);
    }
  }

  lemma LoadStep<V(!new)>(w: World<V>, c: Codec<V>, i: nat, fails: bool)
    requires Enabled(w, Load(i, fails))
    ensures var r, loaded := w.readers[i], LoadedOf(w.source, w.readers[i].still, fails);
            Step(w, c, Load(i, fails)) == w.(readers := w.readers[i :=
              if r.still == [] then Told(Some(r.hit)) else if fails then Told(None)
              else Storing(loaded, loaded, r.hit + loaded)])
  {
    var still := w.readers[i].still;
    assert fails || LoaderOf(w.source, fails)(still) == Some(Restrict(w.source, still));
  }

  lemma FinishStoring<V(!new)>(ws: seq<World<V>>, c: Codec<V>, events: seq<Event<V>>, i: nat, applied: bool)
    returns (ws': seq<World<V>>, events': seq<Event<V>>)
    requires Path(ws, c, events)
    requires var w := ws[|events|]; i < |w.readers| && w.readers[i].Storing?
    ensures Path(ws', c, events') && ws <= ws' && events <= events' && |ws'| == |events'| + 1
    ensures var w, w' := ws[|events|], ws'[|events'|];
            var r := w.readers[i];
            && w'.tiers == Tiers(w.tiers.local + r.left, Written(w.tiers.redis, c, r.loaded, applied))
            && w'.readers == w.readers[i := Told(Some(r.hit))] && w'.source == w.source && w'.writers == w.writers
  {
    hide Path, Written;
    PathSize(ws, c, events);
    ws', events' := FillAll(ws, c, events, i);
    ws', events' := PathNext(ws', c, events', Store(i, applied));
  }

  lemma NothingMore<V(!new)>(local: map<K, V>, redis: map<K, string>, c: Codec<V>, hit: map<K, V>, applied: bool)
    ensures hit + map[] == hit && local + map[] == local && Written(redis, c, map[], applied) == redis
  {
  }

  /** A GetMany that nothing interleaves with is the one-step read: its answer, and what it leaves. */
  lemma ReadAlone<V(!new)>(w: World<V>, c: Codec<V>, keys: seq<K>, down: bool, fails: bool, applied: bool)
    returns (ws: seq<World<V>>, events: seq<Event<V>>)
    ensures Path(ws, c, events) && ws[0] == w && |ws| == |events| + 1
    ensures var load := LoaderOf(w.source, fails);
            ws[|events|] == w.(tiers := AfterMany(w.tiers, c, keys, down, load, applied),
                               readers := w.readers + [Told(ManyAnswer(w.tiers, c, keys, down, load))])
  {
    hide Path, Restrict, Absent, Decoded, Written, AfterMany, ManyAnswer, LoadedOf;
    var i := |w.readers|;
    PathStart(w, c);
    ws, events := PathNext([w], c, [], Ask(keys));
    ws, events := LookAll(ws, c, events, i);
    LookedAll(keys, w.tiers.local);
    var hit, missed := Restrict(w.tiers.local, keys), Absent(keys, w.tiers.local);
    assert ws[|events|] == w.(readers := w.readers + [Looking([], hit, missed)]);
    ws, events := PathNext(ws, c, events, Fetch(i, down));
    ReadParts(w, c, keys, down, fails, applied);
    if missed != [] {
      var r := Fetched(Looking([], hit, missed), w.tiers.redis, c, down);
      assert ws[|events|] == w.(readers := w.readers + [r]);
      ws, events := FinishRead(ws, c, events, i, fails, applied);
    }
  }

  /** The one-step read in terms of the steps. */
  lemma ReadParts<V(!new)>(w: World<V>, c: Codec<V>, keys: seq<K>, down: bool, fails: bool, applied: bool)
    ensures var load := LoaderOf(w.source, fails);
            var hit, missed := Restrict(w.tiers.local, keys), Absent(keys, w.tiers.local);
            var r := Fetched(Looking([], hit, missed), w.tiers.redis, c, down);
            var after := AfterMany(w.tiers, c, keys, down, load, applied);
            var answer := ManyAnswer(w.tiers, c, keys, down, load);
            if missed == [] then r == Told(answer) && after == w.tiers
            else
              var loaded := LoadedOf(w.source, r.still, fails);
              && after == Tiers(w.tiers.local + r.left + loaded, Written(w.tiers.redis, c, loaded, applied))
              && answer == if r.still != [] && fails then None else Some(r.hit + loaded)
  {
    hide Restrict, Decoded, Written, Absent;
    var load, hit, missed := LoaderOf(w.source, fails), Restrict(w.tiers.local, keys), Absent(keys, w.tiers.local);
    NothingMore(w.tiers.local, w.tiers.redis, c, hit, applied);
    NothingAbsent<V>(w.tiers.redis, c);
    var seen := if down then map[] else Decoded(w.tiers.redis, c, missed);
    var still := Absent(missed, seen);
    NothingMore(w.tiers.local + seen, w.tiers.redis, c, hit + seen, applied);
    assert fails || load(still) == Some(Restrict(w.source, still));
  }

  lemma NothingAbsent<V(!new)>(redis: map<K, string>, c: Codec<V>)
    ensures Decoded(redis, c, []) == map[] && forall m: map<K, V> :: Absent([], m) == []
  {
  }

  lemma PathStart<V(!new)>(w: World<V>, c: Codec<V>)
    ensures Path([w], c, [])
  {
  }

  lemma LookedAll<V(!new)>(keys: seq<K>, local: map<K, V>)
    ensures map[] + Restrict(local, keys) == Restrict(local, keys)
    ensures [] + Absent(keys, local) == Absent(keys, local)
  {
  }

  // ---- Writes with nothing in between ----

  lemma {:induction false} ApplyAll<V(!new)>(ws: seq<World<V>>, c: Codec<V>, events: seq<Event<V>>, j: nat)
    returns (ws': seq<World<V>>, events': seq<Event<V>>)
    requires Path(ws, c, events)
    requires var w := ws[|events|];
             j < |w.writers| && w.writers[j].Writing? && w.writers[j].todo <= w.writers[j].u.Keys()
    ensures Path(ws', c, events') && ws <= ws' && events <= events' && |ws'| == |events'| + 1
    ensures var w, w' := ws[|events|], ws'[|events'|];
            w' == w.(tiers := w.tiers.(local := OnKeys(w.writers[j].u, w.tiers.local, w.writers[j].todo)),
                     writers := w.writers[j := w.writers[j].(todo := {})])
    decreases ws[|events|].writers[j].todo
  {
    hide Path, OnKeys;
    PathSize(ws, c, events);
    ws', events' := ws, events;
    var w := ws[|events|];
    var wr := w.writers[j];
    if wr.todo == {} {
      OnNoKeys(wr.u, w.tiers.local);
      assert w.writers[j := wr] == w.writers;
    } else {
      var k :| k in wr.todo;
      ws', events' := PathNext(ws, c, events, Apply(j, k));
      OnOneKey(wr.u, w.tiers.local, wr.todo, k);
      ws', events' := ApplyAll(ws', c, events', j);
    }
  }

  /** The update, of these keys only. */
  function OnKeys<V>(u: Update<V>, local: map<K, V>, keys: set<K>): map<K, V> {
    match u
    case Put(items) => local + (items - (items.Keys - keys))
    case Remove(_) => local - keys
  }

  lemma OnNoKeys<V(!new)>(u: Update<V>, local: map<K, V>)
    ensures OnKeys(u, local, {}) == local && OnKeys(u, local, u.Keys()) == u.OnMap(local)
  {
  }

  lemma OnOneKey<V(!new)>(u: Update<V>, local: map<K, V>, keys: set<K>, k: K)
    requires k in keys && keys <= u.Keys()
    ensures OnKeys(u, u.OnKey(local, k), keys - {k}) == OnKeys(u, local, keys)
  {
  }

  /** A Set or Delete that nothing interleaves with is the one-step write. */
  lemma WriteAlone<V(!new)>(w: World<V>, c: Codec<V>, u: Update<V>, applied: bool)
    returns (ws: seq<World<V>>, events: seq<Event<V>>)
    ensures Path(ws, c, events) && ws[0] == w && |ws| == |events| + 1
    ensures ws[|events|] == World(if u.Put? then AfterSet(w.tiers, c, u.items, applied)
                                  else AfterDelete(w.tiers, u.gone, applied),
                                  u.OnMap(w.source), w.readers, w.writers + [Finished])
  {
    hide Path, OnKeys, Written;
    var j := |w.writers|;
    PathStart(w, c);
    ws, events := PathNext([w], c, [], Commit(u));
    ws, events := ApplyAll(ws, c, events, j);
    OnNoKeys(u, w.tiers.local);
    ws, events := PathNext(ws, c, events, Send(j, applied));
  }

  // ---- Where it fails ----

  /** The first m steps are sound. */
  ghost predicate SoundTo<V(!new)>(ws: seq<World<V>>, c: Codec<V>, events: seq<Event<V>>, m: nat)
    requires Path(ws, c, events) && m <= |events|
  {
    forall n :: 0 <= n < m ==> Sound(ws[n], c, events[n])
  }

  lemma SoundNext<V(!new)>(ws: seq<World<V>>, c: Codec<V>, events: seq<Event<V>>, e: Event<V>)
    returns (ws': seq<World<V>>, events': seq<Event<V>>)
    requires Path(ws, c, events) && Enabled(ws[|events|], e) && SoundTo(ws, c, events, |events|)
    requires Sound(ws[|events|], c, e)
    ensures ws' == ws + [Step(ws[|events|], c, e)] && events' == events + [e] && |ws'| == |events'| + 1
    ensures Path(ws', c, events') && SoundTo(ws', c, events', |events'|)
  {
    hide Sound, Step, Enabled, Path;
    PathSize(ws, c, events);
    ws', events' := PathNext(ws, c, events, e);
    forall n | 0 <= n < |events'| ensures Enabled(ws'[n], events'[n]) && Sound(ws'[n], c, events'[n]) {
      SoundThere(ws, c, events, ws', events', n, e);
    }
  }

  lemma SoundThere<V(!new)>(ws: seq<World<V>>, c: Codec<V>, events: seq<Event<V>>,
                            ws': seq<World<V>>, events': seq<Event<V>>, n: nat, e: Event<V>)
    requires Path(ws, c, events) && Path(ws', c, events') && ws <= ws' && events' == events + [e] && n < |events'|
    requires SoundTo(ws, c, events, |events|) && Enabled(ws[|events|], e) && Sound(ws[|events|], c, e)
    ensures Enabled(ws'[n], events'[n]) && Sound(ws'[n], c, events'[n])
  {
    hide Sound, Step, Enabled;
    assert ws'[n] == ws[n];
    assert n < |events| ==> events'[n] == events[n];
  }

  lemma SoundPrefix<V(!new)>(ws: seq<World<V>>, c: Codec<V>, events: seq<Event<V>>,
                             ws': seq<World<V>>, events': seq<Event<V>>)
    requires Path(ws, c, events) && Path(ws', c, events') && ws <= ws' && events <= events'
    requires SoundTo(ws, c, events, |events|)
    ensures SoundTo(ws', c, events', |events|)
  {
    hide Sound, Step, Enabled;
    assert forall n :: 0 <= n < |events| ==> ws'[n] == ws[n] && events'[n] == events[n];
  }

  lemma SameWriters<V(!new)>(w: World<V>, w': World<V>, k: K)
    requires w'.writers == w.writers
    ensures Open(w', k) <==> Open(w, k)
  {
  }

  /** The worlds of a read of a key that neither tier has, up to its load. */
  function Missing<V>(w: World<V>, k: K): seq<World<V>>
    requires k in w.source
  {
    var m := map[k := w.source[k]];
    [w,
     w.(readers := w.readers + [Looking([k], map[], [])]),
     w.(readers := w.readers + [Looking([], map[], [k])]),
     w.(readers := w.readers + [Filling(map[], map[], [k])]),
     w.(readers := w.readers + [Storing(m, m, m)])]
  }

  function MissEvents<V>(i: nat, k: K): seq<Event<V>> {
    [Ask([k]), Look(i), Fetch(i, false), Load(i, false)]
  }

  lemma MissStep<V(!new)>(w: World<V>, c: Codec<V>, k: K, n: nat)
    requires k !in w.tiers.local && k !in w.tiers.redis && k in w.source && n < 4
    ensures var ws, e := Missing(w, k), MissEvents<V>(|w.readers|, k)[n];
            Enabled(ws[n], e) && ws[n + 1] == Step(ws[n], c, e)
  {
    hide Restrict, Decoded, Absent;
    var i, m := |w.readers|, map[k := w.source[k]];
    var ws := Missing(w, k);
    if n == 1 {
      assert Looked(ws[1].readers[i], w.tiers.local) == Looking([], map[], [k]);
    } else if n == 2 {
      FieldMissed(w.tiers.redis, c, k);
      AbsentOne<V>(k, map[]);
      PlusNothing<V>(map[]);
      assert Fetched(ws[2].readers[i], w.tiers.redis, c, false) == Filling(map[], map[], [k]);
    } else if n == 3 {
      LoadStep(ws[3], c, i, false);
      AbsentOne(k, w.source);
      PlusNothing(m);
    }
  }

  lemma MissAndLoad<V(!new)>(w: World<V>, c: Codec<V>, k: K) returns (ws: seq<World<V>>, events: seq<Event<V>>)
    requires k !in w.tiers.local && k !in w.tiers.redis && k in w.source
    ensures ws == Missing(w, k) && events == MissEvents(|w.readers|, k)
    ensures Path(ws, c, events) && SoundTo(ws, c, events, 4)
  {
    ws, events := Missing(w, k), MissEvents(|w.readers|, k);
    forall n | 0 <= n < 4 ensures Enabled(ws[n], events[n]) && ws[n + 1] == Step(ws[n], c, events[n]) {
      MissStep(w, c, k, n);
    }
    hide Enabled, Step;
  }

  lemma FieldMissed<V(!new)>(redis: map<K, string>, c: Codec<V>, k: K)
    requires k !in redis
    ensures Decoded(redis, c, [k]) == map[]
  {
  }

  /** A Set of a key that nobody is writing, requests and all. */
  lemma SetOne<V(!new)>(ws: seq<World<V>>, c: Codec<V>, events: seq<Event<V>>, k: K, v: V)
    returns (ws': seq<World<V>>, events': seq<Event<V>>)
    requires Path(ws, c, events) && SoundTo(ws, c, events, |events|)
    requires !Open(ws[|events|], k) && c.enc(v).Some?
    ensures Path(ws', c, events') && ws <= ws' && |ws'| == |ws| + 3 && SoundTo(ws', c, events', |events'|)
    ensures events' == var j := |ws[|events|].writers|; events + [Commit(Put(map[k := v])), Apply(j, k), Send(j, true)]
    ensures var w, w', n := ws[|events|], ws'[|events'|], map[k := v];
            && w'.tiers == Tiers(w.tiers.local[k := v], Written(w.tiers.redis, c, n, true))
            && w'.source == w.source[k := v] && w'.readers == w.readers && !Open(w', k)
  {
    hide Path, SoundTo, Open, Written;
    PathSize(ws, c, events);
    var w, u, j := ws[|events|], Put(map[k := v]), |ws[|events|].writers|;
    ws', events' := SoundNext(ws, c, events, Commit(u));
    var w1 := ws'[|events'|];
    assert w1.source == w.source[k := v];
    ws', events' := SoundNext(ws', c, events', Apply(j, k));
    var w2 := ws'[|events'|];
    ws', events' := SoundNext(ws', c, events', Send(j, true));
    assert w2.writers == w.writers + [Writing(u, {})];
    OnlyWriter(w, w2, j, u, k);
    OpenAfter(w2, c, Send(j, true), k);
  }

  lemma OnlyWriter<V(!new)>(w: World<V>, w': World<V>, j: nat, u: Update<V>, k: K)
    requires !Open(w, k) && j == |w.writers| && w'.writers == w.writers + [Writing(u, {})]
    ensures !OpenBut(w', j, k)
  {
  }

  /** A key that neither tier has can be read and written at once so that the read puts the older value back, with
      every request executed; only the read's filling is not sound. */
  lemma OvertakenFill<V(!new)>(w: World<V>, c: Codec<V>, k: K, newer: V)
    returns (ws: seq<World<V>>, events: seq<Event<V>>)
    requires !Open(w, k) && k !in w.tiers.local && k !in w.tiers.redis && k in w.source
    requires w.source[k] != newer && c.enc(newer).Some?
    ensures Path(ws, c, events) && ws[0] == w && |ws| == 10
    ensures events == var i, j := |w.readers|, |w.writers|;
                      [Ask([k]), Look(i), Fetch(i, false), Load(i, false)]
                      + [Commit(Put(map[k := newer])), Apply(j, k), Send(j, true)] + [Fill(i, k), Store(i, true)]
    ensures SoundTo(ws, c, events, 7) && !Sound(ws[7], c, events[7])
    ensures ws[9].source == w.source[k := newer] && !Open(ws[9], k)
    ensures ManyAnswer(ws[9].tiers, c, [k], false, LoaderOf(ws[9].source, false)) == Some(map[k := w.source[k]])
  {
    hide Path, SoundTo, Open, ManyAnswer, AfterMany, Written;
    var i := |w.readers|;
    ws, events := MissAndLoad(w, c, k);
    SameWriters(w, ws[4], k);
    ws, events := SetOne(ws, c, events, k, newer);
    var ws7, events7 := ws, events;
    ws, events := PathNext(ws, c, events, Fill(i, k));
    SameWriters(ws7[7], ws[8], k);
    ws, events := PathNext(ws, c, events, Store(i, true));
    SameWriters(ws[8], ws[9], k);
    SoundPrefix(ws7, c, events7, ws, events);
    GetIsGetManyOfOne(ws[9].tiers, c, k, false, LoaderOf(ws[9].source, false), true);
  }

  /** The worlds of two Sets of one key that cross. */
  function Crossing<V>(w: World<V>, c: Codec<V>, k: K, older: V, newer: V): seq<World<V>> {
    var a, b, t := Put(map[k := older]), Put(map[k := newer]), w.tiers;
    var redis := Written(t.redis, c, b.items, true);
    var source := w.source[k := newer];
    [w,
     w.(source := w.source[k := older], writers := w.writers + [Writing(a, {k})]),
     w.(source := source, writers := w.writers + [Writing(a, {k}), Writing(b, {k})]),
     World(t.(local := t.local[k := older]), source, w.readers, w.writers + [Writing(a, {}), Writing(b, {k})]),
     World(t.(local := t.local[k := newer]), source, w.readers, w.writers + [Writing(a, {}), Writing(b, {})]),
     World(Tiers(t.local[k := newer], redis), source, w.readers, w.writers + [Writing(a, {}), Finished]),
     World(Tiers(t.local[k := newer], Written(redis, c, a.items, true)), source, w.readers,
           w.writers + [Finished, Finished])]
  }

  function CrossEvents<V>(j: nat, k: K, older: V, newer: V): seq<Event<V>> {
    [Commit(Put(map[k := older])), Commit(Put(map[k := newer])), Apply(j, k), Apply(j + 1, k),
     Send(j + 1, true), Send(j, true)]
  }

  lemma CrossStep<V(!new)>(w: World<V>, c: Codec<V>, k: K, older: V, newer: V, n: nat)
    requires n < 6
    ensures var ws, e := Crossing(w, c, k, older, newer), CrossEvents(|w.writers|, k, older, newer)[n];
            Enabled(ws[n], e) && ws[n + 1] == Step(ws[n], c, e)
  {
    hide Written;
    var ws, j := Crossing(w, c, k, older, newer), |w.writers|;
    assert map[k := older].Keys == {k} == map[k := newer].Keys && {k} - {k} == {};
    if n < 2 {
      assert w.source[k := older] + map[k := newer] == w.source[k := newer];
      assert w.source + map[k := older] == w.source[k := older];
    } else {
      assert w.tiers.local[k := older][k := newer] == w.tiers.local[k := newer];
      assert Step(ws[n], c, CrossEvents(j, k, older, newer)[n]).writers == ws[n + 1].writers;
    }
  }

  /** Two Sets of one key that cross leave the hash with the older value, though every request was executed; only
      the last request is not sound. */
  lemma CrossedSets<V(!new)>(w: World<V>, c: Codec<V>, k: K, older: V, newer: V)
    returns (ws: seq<World<V>>, events: seq<Event<V>>)
    requires !Open(w, k) && older != newer && c.enc(older).Some? && c.dec(c.enc(older).value) == Some(older)
    ensures ws == Crossing(w, c, k, older, newer) && events == CrossEvents(|w.writers|, k, older, newer)
    ensures Path(ws, c, events) && SoundTo(ws, c, events, 5) && !Sound(ws[5], c, events[5])
    ensures ws[6].source == w.source[k := newer] && !Open(ws[6], k)
    ensures var t := ws[6].tiers;
            ManyAnswer(t.(local := t.local - {k}), c, [k], false, LoaderOf(ws[6].source, false))
            == Some(map[k := older])
  {
    hide ManyAnswer, Open, OpenBut, Restrict;
    ws, events := Crossing(w, c, k, older, newer), CrossEvents(|w.writers|, k, older, newer);
    forall n | 0 <= n < 6 ensures Enabled(ws[n], events[n]) && ws[n + 1] == Step(ws[n], c, events[n]) {
      CrossStep(w, c, k, older, newer, n);
    }
    CrossedWriters(w, c, k, older, newer);
    CrossedFails(w, c, k, older, newer);
    hide Step;
  }

  lemma CrossedFails<V(!new)>(w: World<V>, c: Codec<V>, k: K, older: V, newer: V)
    requires older != newer && c.enc(older).Some? && c.dec(c.enc(older).value) == Some(older)
    requires !OpenBut(Crossing(w, c, k, older, newer)[5], |w.writers|, k)
    ensures var ws := Crossing(w, c, k, older, newer);
            var t, e := ws[6].tiers, Send(|w.writers|, true);
            && Enabled(ws[5], e) && !Sound(ws[5], c, e)
            && ManyAnswer(t.(local := t.local - {k}), c, [k], false, LoaderOf(ws[6].source, false))
               == Some(map[k := older])
  {
    hide ManyAnswer, AfterMany, OpenBut;
    var ws := Crossing(w, c, k, older, newer);
    assert Encodable(c, map[k := older]) && k in map[k := older];
    FieldAnswers(ws[6].tiers, c, ws[6].source, k, older);
  }

  lemma FieldAnswers<V(!new)>(t: Tiers<V>, c: Codec<V>, source: map<K, V>, k: K, v: V)
    requires k in t.redis && c.dec(t.redis[k]) == Some(v)
    ensures ManyAnswer(t.(local := t.local - {k}), c, [k], false, LoaderOf(source, false)) == Some(map[k := v])
  {
    hide ManyAnswer, AfterMany;
    GetIsGetManyOfOne(t.(local := t.local - {k}), c, k, false, LoaderOf(source, false), true);
  }

  lemma CrossedWriters<V(!new)>(w: World<V>, c: Codec<V>, k: K, older: V, newer: V)
    requires !Open(w, k)
    ensures var ws, j := Crossing(w, c, k, older, newer), |w.writers|;
            OpenBut(ws[4], j + 1, k) && !OpenBut(ws[5], j, k) && !Open(ws[6], k)
  {
    var ws := Crossing(w, c, k, older, newer);
    assert Writes(ws[4].writers[|w.writers|], k);
  }
}
