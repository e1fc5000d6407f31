/**
 * Keyed topic fan-out. A publish makes one job per active fan-out subscription; its idempotency
 * key, salted with topic and subscription name, lets storage return the live job of a repeat.
 * A `string` stands for the UTF-8 bytes of the text, one `char` a byte, so `|s|` is `s.len()`.
 */
module PubSub {
  import opened Prelude
  import opened Decimal

  function SaltedUniqueKey(key: string, topic: string, name: string): string {
    key + "::" + Format(|topic|) + ":" + Format(|name|) + ":" + topic + name
  }

  /** The part of the salted key after `key::`. */
  function Salt(topic: string, name: string): string {
    Format(|topic|) + ":" + (Format(|name|) + ":" + (topic + name))
  }

  lemma SaltSplit(key: string, topic: string, name: string)
    ensures SaltedUniqueKey(key, topic, name) == key + ("::" + Salt(topic, name))
  {
  }

  lemma SaltInjective(t1: string, n1: string, t2: string, n2: string)
    requires Salt(t1, n1) == Salt(t2, n2)
    ensures t1 == t2 && n1 == n2
  {
    ColonEndsDigits(Format(|t1|), Format(|n1|) + ":" + (t1 + n1),
                    Format(|t2|), Format(|n2|) + ":" + (t2 + n2));
    ColonEndsDigits(Format(|n1|), t1 + n1, Format(|n2|), t2 + n2);
    FormatInjective(|t1|, |t2|);
    assert t1 == (t1 + n1)[..|t1|] && t2 == (t2 + n2)[..|t2|];
    assert n1 == (t1 + n1)[|t1|..] && n2 == (t2 + n2)[|t2|..];
  }

  /** One event never salts two subscriptions to the same key. */
  lemma SaltedKeyInjective(key: string, t1: string, n1: string, t2: string, n2: string)
    ensures SaltedUniqueKey(key, t1, n1) == SaltedUniqueKey(key, t2, n2) <==> t1 == t2 && n1 == n2
  {
    if SaltedUniqueKey(key, t1, n1) == SaltedUniqueKey(key, t2, n2) {
      SaltSplit(key, t1, n1);
      SaltSplit(key, t2, n2);
      var a, b := "::" + Salt(t1, n1), "::" + Salt(t2, n2);
      assert a == (key + a)[|key|..] && b == (key + b)[|key|..];
      assert Salt(t1, n1) == a[2..] && Salt(t2, n2) == b[2..];
      SaltInjective(t1, n1, t2, n2);
    }
  }

  /** `k2` goes on from `k1::` with the start of `k1`'s salt, and the rest of that salt is `k2`'s own. */
  ghost predicate SpellsOut(k1: string, t1: string, n1: string, k2: string, t2: string, n2: string) {
    exists x: string :: k2 == k1 + "::" + x && Salt(t1, n1) == x + ("::" + Salt(t2, n2))
  }

  /** Under different idempotency keys, salted keys meet exactly when the longer key spells out the shorter's salt. */
  lemma SaltedKeysOfUnrelatedEvents(k1: string, t1: string, n1: string, k2: string, t2: string, n2: string)
    requires |k1| < |k2|
    ensures SaltedUniqueKey(k1, t1, n1) == SaltedUniqueKey(k2, t2, n2) <==> SpellsOut(k1, t1, n1, k2, t2, n2)
  {
    SaltSplit(k1, t1, n1);
    SaltSplit(k2, t2, n2);
    if SaltedUniqueKey(k1, t1, n1) == SaltedUniqueKey(k2, t2, n2) {
      assert IsDigit(Salt(t1, n1)[0]);
      var x := LongerKeyContinues(k1, Salt(t1, n1), k2, Salt(t2, n2));
    }
    if SpellsOut(k1, t1, n1, k2, t2, n2) {
      var x :| k2 == k1 + "::" + x && Salt(t1, n1) == x + ("::" + Salt(t2, n2));
      Reassociate(k1, x, "::" + Salt(t2, n2));
    }
  }

  lemma LongerKeyContinues(k1: string, s1: string, k2: string, s2: string) returns (x: string)
    requires k1 + ("::" + s1) == k2 + ("::" + s2) && |k1| < |k2| && s1 != "" && IsDigit(s1[0])
    ensures k2 == k1 + "::" + x && s1 == x + ("::" + s2)
  {
    var a, b := k1 + ("::" + s1), k2 + ("::" + s2);
    assert a[|k1| + 2] == s1[0] && b[|k2|] == ':' && b[|k2| + 1] == ':';
    x := k2[|k1| + 2..];
    assert k2 == b[..|k2|] == a[..|k2|];
    assert a[..|k2|] == k1 + "::" + x;
    assert s1 == a[|k1| + 2..] == b[|k1| + 2..];
  }

  lemma Reassociate(k: string, x: string, rest: string)
    ensures k + ("::" + (x + rest)) == (k + "::" + x) + rest
  {
  }

  /** All collisions there are. */
  lemma SaltedKeysEqualIff(k1: string, t1: string, n1: string, k2: string, t2: string, n2: string)
    ensures SaltedUniqueKey(k1, t1, n1) == SaltedUniqueKey(k2, t2, n2) <==>
            || (k1 == k2 && t1 == t2 && n1 == n2)
            || SpellsOut(k1, t1, n1, k2, t2, n2) || SpellsOut(k2, t2, n2, k1, t1, n1)
  {
    if |k1| < |k2| {
      SaltedKeysOfUnrelatedEvents(k1, t1, n1, k2, t2, n2);
    } else if |k2| < |k1| {
      SaltedKeysOfUnrelatedEvents(k2, t2, n2, k1, t1, n1);
    } else {
      SaltSplit(k1, t1, n1);
      SaltSplit(k2, t2, n2);
      assert (k1 + ("::" + Salt(t1, n1)))[..|k1|] == k1 && (k2 + ("::" + Salt(t2, n2)))[..|k2|] == k2;
      SaltedKeyInjective(k1, t1, n1, t2, n2);
    }
  }

  /** They really can: the longer key may spell out the start of the shorter one's salt. */
  lemma SaltedKeysCanCollide()
    ensures SaltedUniqueKey("a", "t", "q::1:1:xy") == SaltedUniqueKey("a::1:9:tq", "x", "y")
  {
    assert Format(1) == "1" && Format(9) == "9";
  }

  // Storage that dedups live jobs on their unique key

  datatype NewJob = NewJob(
    queue: string, taskName: string, payload: string, uniqueKey: Option<string>, namespace: Option<string>)

  datatype Job = Job(id: nat, spec: NewJob)

  /** Pending and running jobs, with the next id to hand out. */
  datatype JobTable = JobTable(live: seq<Job>, nextId: nat)

  const EMPTY := JobTable([], 0)

  predicate HasKey(j: Job, key: string) { j.spec.uniqueKey == Some(key) }

  /** The partial unique index over live rows. */
  predicate UniqueIndex(live: seq<Job>) {
    forall i, j :: 0 <= i < j < |live| && live[i].spec.uniqueKey.Some? ==>
      live[i].spec.uniqueKey != live[j].spec.uniqueKey
  }

  function FindLive(live: seq<Job>, key: string): (r: Option<Job>)
    ensures r.Some? ==> r.value in live && HasKey(r.value, key)
    ensures r.None? ==> forall j :: j in live ==> !HasKey(j, key)
  {
    if live == [] then None
    else if HasKey(live[0], key) then Some(live[0])
    else FindLive(live[1..], key)
  }

  function Insert(t: JobTable, nj: NewJob): JobTable {
    JobTable(t.live + [Job(t.nextId, nj)], t.nextId + 1)
  }

  function EnqueueUnique(t: JobTable, nj: NewJob): (JobTable, Job) {
    var found := if nj.uniqueKey.Some? then FindLive(t.live, nj.uniqueKey.value) else None;
    if found.Some? then (t, found.value) else (Insert(t, nj), Job(t.nextId, nj))
  }

  function EnqueueUniqueBatch(t: JobTable, jobs: seq<NewJob>): (JobTable, seq<Job>)
    decreases jobs
  {
    if jobs == [] then (t, [])
    else
      var (t1, j) := EnqueueUnique(t, jobs[0]);
      var (t2, js) := EnqueueUniqueBatch(t1, jobs[1..]);
      (t2, [j] + js)
  }

  function EnqueueBatch(t: JobTable, jobs: seq<NewJob>): (JobTable, seq<Job>)
    decreases jobs
  {
    if jobs == [] then (t, [])
    else
      var (t2, js) := EnqueueBatch(Insert(t, jobs[0]), jobs[1..]);
      (t2, [Job(t.nextId, jobs[0])] + js)
  }

  // Publishing

  datatype Mode = Fanout | Log

  datatype Subscription = Subscription(name: string, taskName: string, queue: string, mode: Mode)

  datatype Request = Request(
    topic: string, payload: string, idempotencyKey: Option<string>, namespace: Option<string>)

  function DeliveryJob(req: Request, sub: Subscription): NewJob {
    NewJob(sub.queue, sub.taskName, req.payload,
           if req.idempotencyKey.Some?
           then Some(SaltedUniqueKey(req.idempotencyKey.value, req.topic, sub.name)) else None,
           req.namespace)
  }

  function Deliveries(req: Request, subs: seq<Subscription>): seq<NewJob> {
    if subs == [] then []
    else if subs[0].mode.Log? then Deliveries(req, subs[1..])
    else [DeliveryJob(req, subs[0])] + Deliveries(req, subs[1..])
  }

  function Publish(t: JobTable, req: Request, subs: seq<Subscription>): (JobTable, seq<Job>) {
    var jobs := Deliveries(req, subs);
    if req.idempotencyKey.None? then EnqueueBatch(t, jobs) else EnqueueUniqueBatch(t, jobs)
  }

  lemma {:induction false} BatchOneMore(t: JobTable, jobs: seq<NewJob>, out: seq<Job>)
    requires jobs != []
    ensures var (t1, j) := EnqueueUnique(t, jobs[0]);
            var (t2, js) := EnqueueUniqueBatch(t1, jobs[1..]);
            EnqueueUniqueBatch(t, jobs).0 == t2 && out + EnqueueUniqueBatch(t, jobs).1 == (out + [j]) + js
  {
    var (t1, j) := EnqueueUnique(t, jobs[0]);
    var (t2, js) := EnqueueUniqueBatch(t1, jobs[1..]);
    assert EnqueueUniqueBatch(t, jobs) == (t2, [j] + js);
    assert out + ([j] + js) == (out + [j]) + js;
  }

  class JobStore {
    var live: seq<Job>
    var nextId: nat

    ghost function View(): JobTable reads this { JobTable(live, nextId) }

    constructor ()
      ensures View() == EMPTY
    {
      live := [];
      nextId := 0;
    }

    /** One transaction: each job is inserted unless a live job already holds its key. */
    method UniqueBatch(jobs: seq<NewJob>) returns (out: seq<Job>)
      modifies this
      ensures (View(), out) == EnqueueUniqueBatch(old(View()), jobs)
    {
      out := [];
      assert jobs[0..] == jobs && out + EnqueueUniqueBatch(View(), jobs).1 == EnqueueUniqueBatch(View(), jobs).1;
      for i := 0 to |jobs|
        invariant var (t, js) := EnqueueUniqueBatch(View(), jobs[i..]);
                  (t, out + js) == EnqueueUniqueBatch(old(View()), jobs)
      {
        var nj := jobs[i];
        BatchOneMore(View(), jobs[i..], out);
        assert jobs[i..][1..] == jobs[i + 1..];
        var found := if nj.uniqueKey.Some? then FindLive(live, nj.uniqueKey.value) else None;
        if found.Some? {
          out := out + [found.value];
        } else {
          out := out + [Job(nextId, nj)];
          live := live + [Job(nextId, nj)];
          nextId := nextId + 1;
        }
      }
      assert out + [] == out;
    }

    method Batch(jobs: seq<NewJob>) returns (out: seq<Job>)
      modifies this
      ensures (View(), out) == EnqueueBatch(old(View()), jobs)
    {
      out := [];
      assert jobs[0..] == jobs && out + EnqueueBatch(View(), jobs).1 == EnqueueBatch(View(), jobs).1;
      for i := 0 to |jobs|
        invariant var (t, js) := EnqueueBatch(View(), jobs[i..]);
                  (t, out + js) == EnqueueBatch(old(View()), jobs)
      {
        ghost var (t, js) := EnqueueBatch(View(), jobs[i..]);
        assert jobs[i..][1..] == jobs[i + 1..] && out + js == out + [js[0]] + js[1..];
        out := out + [Job(nextId, jobs[i])];
        live := live + [Job(nextId, jobs[i])];
        nextId := nextId + 1;
      }
      assert out + [] == out;
    }

    /**
     * One job per active fan-out subscription, `at[k]` being the subscription job `out[k]` is for. Without a
     * key each is a new job; with one, a delivery that is still live is returned in place of a new job.
     */
    method PublishToTopic(req: Request, subs: seq<Subscription>) returns (out: seq<Job>, ghost at: seq<nat>)
      modifies this
      ensures (View(), out) == Publish(old(View()), req, subs)
      ensures |at| == |out| && FanoutPlaces(subs, at)
      ensures req.idempotencyKey.None? ==>
                && live == old(live) + out
                && forall k :: 0 <= k < |out| ==>
                     && out[k].id == old(nextId) + k
                     && out[k].spec.queue == subs[at[k]].queue && out[k].spec.taskName == subs[at[k]].taskName
                     && out[k].spec.payload == req.payload && out[k].spec.namespace == req.namespace
                     && out[k].spec.uniqueKey == None
      ensures req.idempotencyKey.Some? && UniqueIndex(old(live)) && DistinctNames(subs) ==>
                && old(live) <= live
                && (forall m :: |old(live)| <= m < |live| ==> live[m] in out)
                && forall k :: 0 <= k < |out| ==>
                     var key := SaltedUniqueKey(req.idempotencyKey.value, req.topic, subs[at[k]].name);
                     && (forall j :: j in old(live) && HasKey(j, key) ==> out[k] == j)
                     && ((forall j :: j in old(live) ==> !HasKey(j, key)) ==>
                           && out[k] in live[|old(live)|..]
                           && out[k].spec.queue == subs[at[k]].queue && out[k].spec.taskName == subs[at[k]].taskName
                           && out[k].spec.payload == req.payload && out[k].spec.namespace == req.namespace
                           && out[k].spec.uniqueKey == Some(key))
    {
      var jobs := Deliveries(req, subs);
      at := DeliveriesAre(req, subs);
      if req.idempotencyKey.None? {
        AppendsBatch(View(), jobs);
      } else {
        UniqueBatchSize(View(), jobs);
        if UniqueIndex(live) && DistinctNames(subs) { KeyedAnswers(View(), req, subs, at); }
      }
      if jobs == [] { return [], at; }
      if req.idempotencyKey.None? {
        out := Batch(jobs);
      } else {
        out := UniqueBatch(jobs);
      }
    }
  }

  // What one publish makes

  /** `at` lists the fan-out subscriptions, in order. */
  ghost predicate FanoutPlaces(subs: seq<Subscription>, at: seq<nat>) {
    && (forall k :: 0 <= k < |at| ==> at[k] < |subs|) && Increasing(at)
    && (forall i :: 0 <= i < |subs| ==> (i in at <==> subs[i].mode.Fanout?))
  }

  lemma {:induction false} DeliveriesOneMore(req: Request, subs: seq<Subscription>, sub: Subscription)
    ensures Deliveries(req, subs + [sub]) ==
            if sub.mode.Fanout? then Deliveries(req, subs) + [DeliveryJob(req, sub)] else Deliveries(req, subs)
  {
    if subs == [] {
      assert subs + [sub] == [sub];
    } else {
      assert (subs + [sub])[1..] == subs[1..] + [sub];
      DeliveriesOneMore(req, subs[1..], sub);
    }
  }

  /** A delivery for each fan-out subscription, in order. */
  lemma {:induction false} DeliveriesAre(req: Request, subs: seq<Subscription>) returns (at: seq<nat>)
    ensures FanoutPlaces(subs, at) && |at| == |Deliveries(req, subs)|
    ensures forall k :: 0 <= k < |at| ==> Deliveries(req, subs)[k] == DeliveryJob(req, subs[at[k]])
  {
    if subs == [] {
      at := [];
    } else {
      var n := |subs| - 1;
      at := DeliveriesAre(req, subs[..n]);
      DeliveriesOneMore(req, subs[..n], subs[n]);
      assert subs == subs[..n] + [subs[n]];
      if subs[n].mode.Fanout? { at := at + [n]; }
    }
  }

  lemma {:induction false} AppendsBatch(t: JobTable, jobs: seq<NewJob>)
    ensures var (t', out) := EnqueueBatch(t, jobs);
            && t'.live == t.live + out && |out| == |jobs|
            && forall k :: 0 <= k < |out| ==> out[k] == Job(t.nextId + k, jobs[k])
    decreases jobs
  {
    if jobs == [] {
      assert t.live + [] == t.live;
    } else {
      AppendsBatch(Insert(t, jobs[0]), jobs[1..]);
      var (t', out) := EnqueueBatch(t, jobs);
      assert out[0] == Job(t.nextId, jobs[0]) && out == [out[0]] + out[1..];
      assert t.live + [out[0]] + out[1..] == t.live + out;
    }
  }

  /** Nobody among the live jobs holds the key. */
  ghost predicate Unheld(live: seq<Job>, nj: NewJob) { forall j :: j in live ==> j.spec.uniqueKey != nj.uniqueKey }

  lemma UniqueAnswer(t: JobTable, nj: NewJob)
    requires UniqueIndex(t.live) && nj.uniqueKey.Some?
    ensures var (t', job) := EnqueueUnique(t, nj);
            && (forall j :: j in t.live && j.spec.uniqueKey == nj.uniqueKey ==> job == j && t' == t)
            && (Unheld(t.live, nj) ==> job == Job(t.nextId, nj) && t'.live == t.live + [job])
  {
    var found := FindLive(t.live, nj.uniqueKey.value);
    forall j | j in t.live && j.spec.uniqueKey == nj.uniqueKey ensures found == Some(j) {
      SameKeySameJob(t.live, j, found.value, nj.uniqueKey.value);
    }
  }

  lemma {:induction false} UniqueBatchSize(t: JobTable, jobs: seq<NewJob>)
    ensures |EnqueueUniqueBatch(t, jobs).1| == |jobs| && t.live <= EnqueueUniqueBatch(t, jobs).0.live
    decreases jobs
  {
    if jobs != [] { UniqueBatchSize(EnqueueUnique(t, jobs[0]).0, jobs[1..]); }
  }

  lemma LaterIsNew(a: seq<Job>, b: seq<Job>, c: seq<Job>, j: Job)
    requires a <= b <= c && j in c[|b|..]
    ensures j in c[|a|..]
  {
    var i :| 0 <= i < |c[|b|..]| && c[|b|..][i] == j;
    assert c[|a|..][i + |b| - |a|] == j;
  }

  /** Each job of a batch with keys of its own is answered with the live holder of its key, or is new. */
  lemma {:induction false} UniqueBatchAnswers(t: JobTable, jobs: seq<NewJob>, k: nat)
    requires UniqueIndex(t.live) && DistinctKeys(jobs) && k < |jobs| && jobs[k].uniqueKey.Some?
    ensures var (t', out) := EnqueueUniqueBatch(t, jobs);
            && |out| == |jobs| && t.live <= t'.live
            && (forall j :: j in t.live && j.spec.uniqueKey == jobs[k].uniqueKey ==> out[k] == j)
            && (Unheld(t.live, jobs[k]) ==> out[k] in t'.live[|t.live|..] && out[k].spec == jobs[k])
    decreases jobs
  {
    var (t1, job) := EnqueueUnique(t, jobs[0]);
    var (t', out) := EnqueueUniqueBatch(t, jobs);
    UniqueBatchSize(t, jobs);
    UniqueBatchSize(t1, jobs[1..]);
    EnqueueUniqueKeepsIndex(t, jobs[0]);
    if k == 0 {
      UniqueAnswer(t, jobs[0]);
      if Unheld(t.live, jobs[0]) { assert t'.live[|t.live|] == t1.live[|t.live|] == job; }
    } else {
      UniqueBatchAnswers(t1, jobs[1..], k - 1);
      assert forall j :: j in t1.live ==> j in t.live || j.spec == jobs[0];
      if Unheld(t.live, jobs[k]) { LaterIsNew(t.live, t1.live, t'.live, out[k]); }
    }
  }

  /** A batch leaves no new job it does not answer with. */
  lemma {:induction false} UniqueBatchAdds(t: JobTable, jobs: seq<NewJob>)
    ensures var (t', out) := EnqueueUniqueBatch(t, jobs);
            t.live <= t'.live && forall m :: |t.live| <= m < |t'.live| ==> t'.live[m] in out
    decreases jobs
  {
    UniqueBatchSize(t, jobs);
    if jobs != [] {
      var t1 := EnqueueUnique(t, jobs[0]).0;
      UniqueBatchAdds(t1, jobs[1..]);
      UniqueBatchSize(t1, jobs[1..]);
    }
  }

  /** What a keyed publish answers for each fan-out subscription. */
  lemma KeyedAnswers(t: JobTable, req: Request, subs: seq<Subscription>, at: seq<nat>)
    requires UniqueIndex(t.live) && req.idempotencyKey.Some? && DistinctNames(subs)
    requires |at| == |Deliveries(req, subs)| && FanoutPlaces(subs, at)
    requires forall k :: 0 <= k < |at| ==> Deliveries(req, subs)[k] == DeliveryJob(req, subs[at[k]])
    ensures var (t', out) := Publish(t, req, subs);
            && |out| == |at| && t.live <= t'.live
            && (forall m :: |t.live| <= m < |t'.live| ==> t'.live[m] in out)
            && forall k :: 0 <= k < |out| ==>
                 var nj := DeliveryJob(req, subs[at[k]]);
                 && (forall j :: j in t.live && j.spec.uniqueKey == nj.uniqueKey ==> out[k] == j)
                 && (Unheld(t.live, nj) ==> out[k] in t'.live[|t.live|..] && out[k].spec == nj)
  {
    var jobs := Deliveries(req, subs);
    DeliveriesDistinct(req, subs);
    UniqueBatchSize(t, jobs);
    UniqueBatchAdds(t, jobs);
    var (t', out) := Publish(t, req, subs);
    forall k | 0 <= k < |jobs|
      ensures && (forall j :: j in t.live && j.spec.uniqueKey == jobs[k].uniqueKey ==> out[k] == j)
              && (Unheld(t.live, jobs[k]) ==> out[k] in t'.live[|t.live|..] && out[k].spec == jobs[k])
    {
      UniqueBatchAnswers(t, jobs, k);
    }
  }

  // What a run of publishes leaves behind

  lemma EnqueueUniqueKeepsIndex(t: JobTable, nj: NewJob)
    requires UniqueIndex(t.live)
    ensures var (t', j) := EnqueueUnique(t, nj);
            && UniqueIndex(t'.live) && t.live <= t'.live
            && j in t'.live && (nj.uniqueKey.Some? ==> HasKey(j, nj.uniqueKey.value))
  {
    var (t', j) := EnqueueUnique(t, nj);
    if t' != t {
      assert t'.live[|t.live|] == j;
      assert forall i :: 0 <= i < |t.live| ==> t'.live[i] in t.live;
    }
  }

  lemma {:induction false} UniqueBatchKeepsIndex(t: JobTable, jobs: seq<NewJob>)
    requires UniqueIndex(t.live)
    ensures var (t', out) := EnqueueUniqueBatch(t, jobs);
            UniqueIndex(t'.live) && t.live <= t'.live && |out| == |jobs|
    decreases jobs
  {
    if jobs != [] {
      EnqueueUniqueKeepsIndex(t, jobs[0]);
      UniqueBatchKeepsIndex(EnqueueUnique(t, jobs[0]).0, jobs[1..]);
    }
  }

  lemma {:induction false} BatchOfUnkeyedKeepsIndex(t: JobTable, jobs: seq<NewJob>)
    requires UniqueIndex(t.live)
    requires forall j :: j in jobs ==> j.uniqueKey.None?
    ensures UniqueIndex(EnqueueBatch(t, jobs).0.live)
    ensures t.live <= EnqueueBatch(t, jobs).0.live
    decreases jobs
  {
    if jobs != [] {
      BatchOfUnkeyedKeepsIndex(Insert(t, jobs[0]), jobs[1..]);
    }
  }

  lemma PrefixMember(j: Job, a: seq<Job>, b: seq<Job>)
    requires j in a && a <= b
    ensures j in b
  {
    var k :| 0 <= k < |a| && a[k] == j;
    assert b[k] == j;
  }

  /** After the batch every keyed job has a live holder, and that holder is the one returned. */
  lemma {:induction false} UniqueBatchCovers(t: JobTable, jobs: seq<NewJob>, i: nat)
    requires UniqueIndex(t.live) && i < |jobs| && jobs[i].uniqueKey.Some?
    ensures var (t', out) := EnqueueUniqueBatch(t, jobs);
            |out| == |jobs| && out[i] in t'.live && HasKey(out[i], jobs[i].uniqueKey.value)
    decreases jobs
  {
    var (t1, j) := EnqueueUnique(t, jobs[0]);
    EnqueueUniqueKeepsIndex(t, jobs[0]);
    UniqueBatchKeepsIndex(t1, jobs[1..]);
    if i > 0 {
      UniqueBatchCovers(t1, jobs[1..], i - 1);
    } else {
      PrefixMember(j, t1.live, EnqueueUniqueBatch(t1, jobs[1..]).0.live);
    }
  }

  /** How many live jobs hold `key`. */
  function Holders(live: seq<Job>, key: string): nat {
    if live == [] then 0 else (if HasKey(live[0], key) then 1 else 0) + Holders(live[1..], key)
  }

  lemma {:induction false} OneHolder(live: seq<Job>, j: Job, key: string)
    requires UniqueIndex(live) && j in live && HasKey(j, key)
    ensures Holders(live, key) == 1
  {
    var rest := live[1..];
    assert forall i :: 0 <= i < |rest| ==> rest[i] == live[i + 1];
    if HasKey(live[0], key) {
      NoHolder(rest, key);
    } else {
      OneHolder(rest, j, key);
    }
  }

  lemma {:induction false} NoHolder(live: seq<Job>, key: string)
    requires forall i :: 0 <= i < |live| ==> !HasKey(live[i], key)
    ensures Holders(live, key) == 0
  {
    if live != [] { NoHolder(live[1..], key); }
  }

  /** A publish, a unique enqueue of any job, or a job leaving the live set. */
  datatype Event = Published(req: Request, subs: seq<Subscription>) | Enqueued(job: NewJob) | Finished(id: nat)

  function Leave(live: seq<Job>, id: nat): (r: seq<Job>)
    ensures forall j :: j in r <==> j in live && j.id != id
  {
    if live == [] then [] else (if live[0].id == id then [] else [live[0]]) + Leave(live[1..], id)
  }

  function Step(t: JobTable, e: Event): JobTable {
    match e
    case Published(req, subs) => Publish(t, req, subs).0
    case Enqueued(nj) => EnqueueUnique(t, nj).0
    case Finished(id) => t.(live := Leave(t.live, id))
  }

  function Run(t: JobTable, events: seq<Event>): JobTable
    decreases events
  {
    if events == [] then t else Run(Step(t, events[0]), events[1..])
  }

  lemma {:induction false} LeaveKeepsIndex(live: seq<Job>, id: nat)
    requires UniqueIndex(live)
    ensures UniqueIndex(Leave(live, id))
  {
    if live != [] {
      var rest := live[1..];
      assert forall i :: 0 <= i < |rest| ==> rest[i] == live[i + 1];
      LeaveKeepsIndex(rest, id);
      var kept := Leave(rest, id);
      assert forall k :: 0 <= k < |kept| ==> kept[k] in kept;
    }
  }

  lemma {:induction false} DeliveriesKeyed(req: Request, subs: seq<Subscription>)
    ensures forall j :: j in Deliveries(req, subs) ==> j.uniqueKey.Some? == req.idempotencyKey.Some?
  {
    if subs != [] { DeliveriesKeyed(req, subs[1..]); }
  }

  lemma StepKeepsIndex(t: JobTable, e: Event)
    requires UniqueIndex(t.live)
    ensures UniqueIndex(Step(t, e).live)
    ensures forall j :: j in t.live && e != Finished(j.id) ==> j in Step(t, e).live
  {
    match e
    case Finished(id) => LeaveKeepsIndex(t.live, id);
    case Enqueued(nj) =>
      EnqueueUniqueKeepsIndex(t, nj);
      forall j | j in t.live ensures j in Step(t, e).live { PrefixMember(j, t.live, Step(t, e).live); }
    case Published(req, subs) =>
      var jobs := Deliveries(req, subs);
      DeliveriesKeyed(req, subs);
      if req.idempotencyKey.None? {
        BatchOfUnkeyedKeepsIndex(t, jobs);
      } else {
        UniqueBatchKeepsIndex(t, jobs);
      }
      forall j | j in t.live ensures j in Step(t, e).live {
        PrefixMember(j, t.live, Step(t, e).live);
      }
  }

  lemma {:induction false} RunKeepsJob(t: JobTable, events: seq<Event>, j: Job)
    requires UniqueIndex(t.live) && j in t.live && Finished(j.id) !in events
    ensures UniqueIndex(Run(t, events).live) && j in Run(t, events).live
    decreases events
  {
    if events != [] {
      StepKeepsIndex(t, events[0]);
      RunKeepsJob(Step(t, events[0]), events[1..], j);
    }
  }

  lemma {:induction false} DeliveryPosition(req: Request, subs: seq<Subscription>, sub: Subscription) returns (i: nat)
    requires sub in subs && sub.mode.Fanout?
    ensures i < |Deliveries(req, subs)| && Deliveries(req, subs)[i] == DeliveryJob(req, sub)
  {
    if subs[0] == sub {
      i := 0;
    } else {
      i := DeliveryPosition(req, subs[1..], sub);
      if subs[0].mode.Fanout? { i := i + 1; }
    }
  }

  /**
   * Publish a keyed event, then let anything follow: repeats of the event, other publishes, jobs
   * finishing, as long as the delivery made for `sub` stays live. Then exactly one live job holds
   * the subscription's key, and it is the job the first publish returned.
   */
  lemma KeyHeldOnce(t: JobTable, req: Request, subs: seq<Subscription>, sub: Subscription, later: seq<Event>)
    returns (job: Job)
    requires UniqueIndex(t.live) && req.idempotencyKey.Some?
    requires sub in subs && sub.mode.Fanout?
    ensures job in Publish(t, req, subs).1
    ensures HasKey(job, SaltedUniqueKey(req.idempotencyKey.value, req.topic, sub.name))
    ensures Finished(job.id) !in later ==>
              var live := Run(t, [Published(req, subs)] + later).live;
              && job in live
              && Holders(live, SaltedUniqueKey(req.idempotencyKey.value, req.topic, sub.name)) == 1
  {
    var jobs := Deliveries(req, subs);
    var (t1, out) := EnqueueUniqueBatch(t, jobs);
    var i := DeliveryPosition(req, subs, sub);
    UniqueBatchCovers(t, jobs, i);
    job := out[i];
    if Finished(job.id) !in later {
      StepKeepsIndex(t, Published(req, subs));
      RunKeepsJob(t1, later, job);
      var events := [Published(req, subs)] + later;
      assert events[1..] == later;
      OneHolder(Run(t1, later).live, job, SaltedUniqueKey(req.idempotencyKey.value, req.topic, sub.name));
    }
  }

  lemma {:induction false} HeldBatchChangesNothing(t: JobTable, jobs: seq<NewJob>)
    requires forall nj :: nj in jobs ==> nj.uniqueKey.Some? && FindLive(t.live, nj.uniqueKey.value).Some?
    ensures EnqueueUniqueBatch(t, jobs).0 == t
    decreases jobs
  {
    if jobs != [] { HeldBatchChangesNothing(t, jobs[1..]); }
  }

  /** While all its deliveries are live, publishing the event again changes nothing. */
  lemma RepeatedPublishChangesNothing(t: JobTable, req: Request, subs: seq<Subscription>, later: seq<Event>)
    requires UniqueIndex(t.live) && req.idempotencyKey.Some?
    requires forall j :: j in Publish(t, req, subs).1 ==> Finished(j.id) !in later
    ensures var t' := Run(t, [Published(req, subs)] + later);
            Publish(t', req, subs).0 == t'
  {
    var jobs := Deliveries(req, subs);
    var (t1, out) := EnqueueUniqueBatch(t, jobs);
    var events := [Published(req, subs)] + later;
    assert events[1..] == later;
    DeliveriesKeyed(req, subs);
    StepKeepsIndex(t, Published(req, subs));
    forall nj | nj in jobs ensures FindLive(Run(t, events).live, nj.uniqueKey.value).Some? {
      var i :| 0 <= i < |jobs| && jobs[i] == nj;
      DeliveryStays(t, jobs, later, i);
    }
    HeldBatchChangesNothing(Run(t, events), jobs);
  }

  lemma SameKeySameJob(live: seq<Job>, a: Job, b: Job, key: string)
    requires UniqueIndex(live) && a in live && b in live && HasKey(a, key) && HasKey(b, key)
    ensures a == b
  {
    var i :| 0 <= i < |live| && live[i] == a;
    var j :| 0 <= j < |live| && live[j] == b;
  }

  lemma AnswerIsHolder(t: JobTable, jobs: seq<NewJob>, i: nat, holder: Job)
    requires UniqueIndex(t.live) && EnqueueUniqueBatch(t, jobs).0 == t
    requires i < |jobs| && jobs[i].uniqueKey.Some? && holder in t.live && HasKey(holder, jobs[i].uniqueKey.value)
    ensures |EnqueueUniqueBatch(t, jobs).1| == |jobs| && EnqueueUniqueBatch(t, jobs).1[i] == holder
  {
    UniqueBatchCovers(t, jobs, i);
    SameKeySameJob(t.live, EnqueueUniqueBatch(t, jobs).1[i], holder, jobs[i].uniqueKey.value);
  }

  lemma DeliveryStays(t: JobTable, jobs: seq<NewJob>, later: seq<Event>, i: nat)
    requires UniqueIndex(t.live) && i < |jobs| && jobs[i].uniqueKey.Some?
    requires forall j :: j in EnqueueUniqueBatch(t, jobs).1 ==> Finished(j.id) !in later
    ensures var (t1, out) := EnqueueUniqueBatch(t, jobs);
            var live := Run(t1, later).live;
            UniqueIndex(live) && |out| == |jobs| && out[i] in live && HasKey(out[i], jobs[i].uniqueKey.value)
  {
    var (t1, out) := EnqueueUniqueBatch(t, jobs);
    UniqueBatchCovers(t, jobs, i);
    UniqueBatchKeepsIndex(t, jobs);
    assert out[i] in out;
    RunKeepsJob(t1, later, out[i]);
  }

  /** And the repeat is answered with the deliveries of the first publish. */
  lemma RepeatedPublishReturnsDeliveries(t: JobTable, req: Request, subs: seq<Subscription>, later: seq<Event>)
    requires UniqueIndex(t.live) && req.idempotencyKey.Some?
    requires forall j :: j in Publish(t, req, subs).1 ==> Finished(j.id) !in later
    ensures Publish(Run(t, [Published(req, subs)] + later), req, subs).1 == Publish(t, req, subs).1
  {
    var jobs := Deliveries(req, subs);
    var (t1, out) := EnqueueUniqueBatch(t, jobs);
    assert ([Published(req, subs)] + later)[1..] == later;
    var t' := Run(t1, later);
    DeliveriesKeyed(req, subs);
    RepeatedPublishChangesNothing(t, req, subs, later);
    UniqueBatchKeepsIndex(t, jobs);
    var again := EnqueueUniqueBatch(t', jobs).1;
    if jobs != [] {
      forall i | 0 <= i < |jobs| ensures |again| == |out| && again[i] == out[i] {
        assert jobs[i] in jobs;
        DeliveryStays(t, jobs, later, i);
        AnswerIsHolder(t', jobs, i, out[i]);
      }
      assert again[0] == out[0];
    }
  }

  lemma FreedKey(t: JobTable, job: Job, nj: NewJob)
    requires UniqueIndex(t.live) && job in t.live && job.spec.uniqueKey == nj.uniqueKey && nj.uniqueKey.Some?
    ensures UniqueIndex(Step(t, Finished(job.id)).live) && Unheld(Step(t, Finished(job.id)).live, nj)
  {
    LeaveKeepsIndex(t.live, job.id);
    var after := Step(t, Finished(job.id));
    forall j | j in after.live ensures j.spec.uniqueKey != nj.uniqueKey {
      if j.spec.uniqueKey == nj.uniqueKey { SameKeySameJob(t.live, j, job, nj.uniqueKey.value); }
    }
  }

  /** Deduplication lasts as long as the job does: once it finished, publishing the event again makes a new one. */
  lemma RepublishAfterFinish(t: JobTable, req: Request, subs: seq<Subscription>, sub: Subscription, job: Job)
    returns (again: Job)
    requires UniqueIndex(t.live) && req.idempotencyKey.Some? && DistinctNames(subs) && sub in subs && sub.mode.Fanout?
    requires job in t.live && HasKey(job, SaltedUniqueKey(req.idempotencyKey.value, req.topic, sub.name))
    ensures var after := Step(t, Finished(job.id));
            var (t', out) := Publish(after, req, subs);
            && job !in after.live && again in out && after.live <= t'.live && again in t'.live[|after.live|..]
            && again.spec.queue == sub.queue && again.spec.taskName == sub.taskName
            && again.spec.payload == req.payload && again.spec.namespace == req.namespace
  {
    var nj := DeliveryJob(req, sub);
    var after := Step(t, Finished(job.id));
    FreedKey(t, job, nj);
    var i := DeliveryPosition(req, subs, sub);
    DeliveriesDistinct(req, subs);
    UniqueBatchAnswers(after, Deliveries(req, subs), i);
    again := Publish(after, req, subs).1[i];
  }

  /** Enqueueing a job with a key leaves exactly one live job with it: the one there was, or this one. */
  lemma EnqueuedHoldsKey(t: JobTable, nj: NewJob)
    requires UniqueIndex(t.live) && nj.uniqueKey.Some?
    ensures var live := Step(t, Enqueued(nj)).live;
            && Holders(live, nj.uniqueKey.value) == 1
            && (Unheld(t.live, nj) ==> Job(t.nextId, nj) in live)
            && forall j :: j in t.live ==> j in live
  {
    EnqueueUniqueKeepsIndex(t, nj);
    UniqueAnswer(t, nj);
    var (t', job) := EnqueueUnique(t, nj);
    OneHolder(t'.live, job, nj.uniqueKey.value);
    forall j | j in t.live ensures j in t'.live { PrefixMember(j, t.live, t'.live); }
  }

  /** Two subscriptions of one event are never served by the same job. */
  lemma SubscriptionsNotMerged(req: Request, s1: Subscription, s2: Subscription, j: Job)
    requires req.idempotencyKey.Some? && s1.name != s2.name
    requires j.spec.uniqueKey == DeliveryJob(req, s1).uniqueKey
    ensures j.spec.uniqueKey != DeliveryJob(req, s2).uniqueKey
  {
    SaltedKeyInjective(req.idempotencyKey.value, req.topic, s1.name, req.topic, s2.name);
  }

  // Whose job answers

  /** A live job that is not `nj` holds its key. */
  ghost predicate Claimed(live: seq<Job>, nj: NewJob) {
    exists j :: j in live && j.spec.uniqueKey == nj.uniqueKey && j.spec != nj
  }

  predicate DistinctNames(subs: seq<Subscription>) {
    forall i, j :: 0 <= i < j < |subs| && subs[i].mode.Fanout? && subs[j].mode.Fanout? ==> subs[i].name != subs[j].name
  }

  lemma {:induction false} DeliveryHasSub(req: Request, subs: seq<Subscription>, nj: NewJob) returns (sub: Subscription)
    requires nj in Deliveries(req, subs)
    ensures sub in subs && sub.mode.Fanout? && nj == DeliveryJob(req, sub)
  {
    if subs[0].mode.Fanout? && nj == DeliveryJob(req, subs[0]) {
      sub := subs[0];
    } else {
      sub := DeliveryHasSub(req, subs[1..], nj);
    }
  }

  ghost predicate DistinctKeys(jobs: seq<NewJob>) {
    forall i, j :: 0 <= i < j < |jobs| ==> jobs[i].uniqueKey != jobs[j].uniqueKey
  }

  lemma {:induction false} DeliveriesDistinct(req: Request, subs: seq<Subscription>)
    requires req.idempotencyKey.Some? && DistinctNames(subs)
    ensures DistinctKeys(Deliveries(req, subs))
  {
    if subs != [] {
      var rest := Deliveries(req, subs[1..]);
      DeliveriesDistinct(req, subs[1..]);
      if subs[0].mode.Fanout? {
        forall i | 0 <= i < |rest| ensures rest[i].uniqueKey != DeliveryJob(req, subs[0]).uniqueKey {
          var other := DeliveryHasSub(req, subs[1..], rest[i]);
          var j :| 0 <= j < |subs[1..]| && subs[1..][j] == other;
          assert subs[j + 1] == other;
          SaltedKeyInjective(req.idempotencyKey.value, req.topic, subs[0].name, req.topic, other.name);
        }
      }
    }
  }

  lemma OneAnswer(t: JobTable, nj: NewJob)
    requires UniqueIndex(t.live) && nj.uniqueKey.Some?
    ensures EnqueueUnique(t, nj).1.spec == nj <==> !Claimed(t.live, nj)
  {
    var found := FindLive(t.live, nj.uniqueKey.value);
    if found.Some? {
      forall j | j in t.live && j.spec.uniqueKey == nj.uniqueKey ensures j == found.value {
        SameKeySameJob(t.live, j, found.value, nj.uniqueKey.value);
      }
    }
  }

  lemma OtherKeyClaims(t: JobTable, first: NewJob, nj: NewJob)
    requires nj.uniqueKey.Some? && first.uniqueKey != nj.uniqueKey
    ensures Claimed(EnqueueUnique(t, first).0.live, nj) <==> Claimed(t.live, nj)
  {
    var after := EnqueueUnique(t, first).0.live;
    assert forall j :: j in after <==> j in t.live || (j in after && j.spec == first);
  }

  /** A batch answers with the job itself exactly when no other live job had its key. */
  lemma {:induction false} BatchAnswer(t: JobTable, jobs: seq<NewJob>, i: nat)
    requires UniqueIndex(t.live) && i < |jobs| && jobs[i].uniqueKey.Some? && DistinctKeys(jobs)
    ensures |EnqueueUniqueBatch(t, jobs).1| == |jobs|
    ensures EnqueueUniqueBatch(t, jobs).1[i].spec == jobs[i] <==> !Claimed(t.live, jobs[i])
    decreases jobs
  {
    UniqueBatchKeepsIndex(t, jobs);
    if i == 0 {
      OneAnswer(t, jobs[0]);
    } else {
      EnqueueUniqueKeepsIndex(t, jobs[0]);
      OtherKeyClaims(t, jobs[0], jobs[i]);
      BatchAnswer(EnqueueUnique(t, jobs[0]).0, jobs[1..], i - 1);
    }
  }

  /** A keyed publish makes or finds the subscription's own delivery if and only if no other live job has its key. */
  lemma DeliveredIffUnclaimed(t: JobTable, req: Request, subs: seq<Subscription>, sub: Subscription)
    returns (i: nat)
    requires UniqueIndex(t.live) && req.idempotencyKey.Some? && DistinctNames(subs) && sub in subs && sub.mode.Fanout?
    ensures var (t', out) := Publish(t, req, subs);
            i < |out| && out[i] in t'.live && HasKey(out[i], DeliveryJob(req, sub).uniqueKey.value) &&
            (out[i].spec == DeliveryJob(req, sub) <==> !Claimed(t.live, DeliveryJob(req, sub)))
  {
    i := DeliveryPosition(req, subs, sub);
    DeliveriesDistinct(req, subs);
    UniqueBatchCovers(t, Deliveries(req, subs), i);
    BatchAnswer(t, Deliveries(req, subs), i);
  }

  /** An event that makes no job with `sub`'s key under `req` other than that delivery itself. */
  ghost predicate Unrelated(e: Event, req: Request, sub: Subscription)
    requires req.idempotencyKey.Some?
  {
    match e
    case Finished(_) => true
    case Enqueued(nj) => nj.uniqueKey == DeliveryJob(req, sub).uniqueKey ==> nj == DeliveryJob(req, sub)
    case Published(other, subs) =>
      other.idempotencyKey.Some? ==>
        var k1, k2 := req.idempotencyKey.value, other.idempotencyKey.value;
        forall o :: o in subs && o.mode.Fanout? ==>
          && !SpellsOut(k1, req.topic, sub.name, k2, other.topic, o.name)
          && !SpellsOut(k2, other.topic, o.name, k1, req.topic, sub.name)
          && (k1 == k2 && req.topic == other.topic && sub.name == o.name ==>
             DeliveryJob(other, o) == DeliveryJob(req, sub))
  }

  lemma {:induction false} BatchClaims(t: JobTable, jobs: seq<NewJob>, nj: NewJob)
    requires nj.uniqueKey.Some? && !Claimed(t.live, nj)
    requires forall x :: x in jobs ==> x.uniqueKey == nj.uniqueKey ==> x == nj
    ensures !Claimed(EnqueueUniqueBatch(t, jobs).0.live, nj) && !Claimed(EnqueueBatch(t, jobs).0.live, nj)
    decreases jobs
  {
    if jobs != [] {
      assert jobs[0] in jobs;
      BatchClaims(EnqueueUnique(t, jobs[0]).0, jobs[1..], nj);
      BatchClaims(Insert(t, jobs[0]), jobs[1..], nj);
    }
  }

  lemma UnrelatedKeepsUnclaimed(t: JobTable, e: Event, req: Request, sub: Subscription)
    requires req.idempotencyKey.Some? && Unrelated(e, req, sub) && !Claimed(t.live, DeliveryJob(req, sub))
    ensures !Claimed(Step(t, e).live, DeliveryJob(req, sub))
  {
    var nj := DeliveryJob(req, sub);
    match e
    case Finished(_) =>
    case Enqueued(x) => BatchClaims(t, [x], nj); assert [x][1..] == [];
    case Published(other, subs) =>
      forall x | x in Deliveries(other, subs) && x.uniqueKey == nj.uniqueKey ensures x == nj {
        var o := DeliveryHasSub(other, subs, x);
        SaltedKeysEqualIff(req.idempotencyKey.value, req.topic, sub.name,
                           other.idempotencyKey.value, other.topic, o.name);
      }
      BatchClaims(t, Deliveries(other, subs), nj);
  }

  lemma {:induction false} RunUnclaimed(t: JobTable, events: seq<Event>, req: Request, sub: Subscription)
    requires UniqueIndex(t.live) && req.idempotencyKey.Some? && !Claimed(t.live, DeliveryJob(req, sub))
    requires forall e :: e in events ==> Unrelated(e, req, sub)
    ensures UniqueIndex(Run(t, events).live) && !Claimed(Run(t, events).live, DeliveryJob(req, sub))
    decreases events
  {
    if events != [] {
      assert events[0] in events;
      StepKeepsIndex(t, events[0]);
      UnrelatedKeepsUnclaimed(t, events[0], req, sub);
      RunUnclaimed(Step(t, events[0]), events[1..], req, sub);
    }
  }

  /**
   * After any history whose idempotency keys do not clash with the event's, publishing the event gives
   * the subscription its own delivery, with the event's payload on the subscription's queue, and
   * whatever follows, that stays the one live job for the event until it finishes.
   */
  lemma KeyedEventDeliveredOnce(before: seq<Event>, req: Request, subs: seq<Subscription>, sub: Subscription,
                                later: seq<Event>) returns (job: Job)
    requires req.idempotencyKey.Some? && DistinctNames(subs) && sub in subs && sub.mode.Fanout?
    requires forall e :: e in before ==> Unrelated(e, req, sub)
    ensures job in Publish(Run(EMPTY, before), req, subs).1 && job.spec == DeliveryJob(req, sub)
    ensures Finished(job.id) !in later ==>
              var live := Run(Run(EMPTY, before), [Published(req, subs)] + later).live;
              && job in live
              && Holders(live, DeliveryJob(req, sub).uniqueKey.value) == 1
              && forall j :: j in live && j.spec == DeliveryJob(req, sub) ==> j == job
  {
    RunUnclaimed(EMPTY, before, req, sub);
    var t := Run(EMPTY, before);
    var i := DeliveredIffUnclaimed(t, req, subs, sub);
    var (t1, out) := Publish(t, req, subs);
    job := out[i];
    assert job in out;
    if Finished(job.id) !in later {
      OnlyJob(t, req, subs, job, later);
    }
  }

  lemma OnlyJob(t: JobTable, req: Request, subs: seq<Subscription>, job: Job, later: seq<Event>)
    requires UniqueIndex(t.live) && job in Publish(t, req, subs).0.live && Finished(job.id) !in later
    requires job.spec.uniqueKey.Some?
    ensures var live := Run(t, [Published(req, subs)] + later).live;
            && job in live && Holders(live, job.spec.uniqueKey.value) == 1
            && forall j :: j in live && j.spec == job.spec ==> j == job
  {
    var events := [Published(req, subs)] + later;
    assert events[1..] == later;
    StepKeepsIndex(t, Published(req, subs));
    RunKeepsJob(Publish(t, req, subs).0, later, job);
    var live := Run(t, events).live;
    OneHolder(live, job, job.spec.uniqueKey.value);
    forall j | j in live && j.spec == job.spec ensures j == job {
      SameKeySameJob(live, j, job, job.spec.uniqueKey.value);
    }
  }

  /** A clash in action: while the other event's job is live, this event's subscription gets no job of its own. */
  lemma ClashStarvesSubscription(payload: string, other: string, queue: string, task: string)
    ensures var foreign := Request("x", other, Some("a::1:9:tq"), None);
            var mine := Request("t", payload, Some("a"), None);
            var theirs, sub := Subscription("y", task, queue, Fanout), Subscription("q::1:1:xy", task, queue, Fanout);
            var t := Publish(EMPTY, foreign, [theirs]).0;
            Publish(t, mine, [sub]) == (t, [Job(0, DeliveryJob(foreign, theirs))])
  {
    SaltedKeysCanCollide();
    var foreign, mine := Request("x", other, Some("a::1:9:tq"), None), Request("t", payload, Some("a"), None);
    var theirs, sub := Subscription("y", task, queue, Fanout), Subscription("q::1:1:xy", task, queue, Fanout);
    OneDelivery(foreign, theirs);
    OneDelivery(mine, sub);
    OneUnique(EMPTY, DeliveryJob(foreign, theirs));
    var t := Publish(EMPTY, foreign, [theirs]).0;
    assert t.live == [Job(0, DeliveryJob(foreign, theirs))];
    OneUnique(t, DeliveryJob(mine, sub));
  }

  lemma OneDelivery(req: Request, sub: Subscription)
    requires sub.mode.Fanout?
    ensures Deliveries(req, [sub]) == [DeliveryJob(req, sub)]
  {
    assert [sub][1..] == [];
  }

  lemma OneUnique(t: JobTable, nj: NewJob)
    ensures EnqueueUniqueBatch(t, [nj]) == (EnqueueUnique(t, nj).0, [EnqueueUnique(t, nj).1])
  {
    var (t1, j) := EnqueueUnique(t, nj);
    assert [nj][1..] == [] && EnqueueUniqueBatch(t1, []) == (t1, []);
    assert [j] + [] == [j];
  }

  lemma {:induction false} SameKeysOfTenants(req: Request, other: Request, subs: seq<Subscription>)
    requires other == req.(namespace := other.namespace)
    ensures var a, b := Deliveries(req, subs), Deliveries(other, subs);
            |a| == |b| && forall i :: 0 <= i < |a| ==> a[i].uniqueKey == b[i].uniqueKey
  {
    if subs != [] { SameKeysOfTenants(req, other, subs[1..]); }
  }

  /**
   * The key has no namespace in it: while one tenant's deliveries are live, the same keyed publish of
   * another tenant makes no job and is answered with theirs.
   */
  lemma TenantsShareKeys(t: JobTable, req: Request, other: Request, subs: seq<Subscription>)
    requires UniqueIndex(t.live) && req.idempotencyKey.Some? && other == req.(namespace := other.namespace)
    ensures var (t1, out) := Publish(t, req, subs); Publish(t1, other, subs) == (t1, out)
  {
    var jobs, theirs := Deliveries(req, subs), Deliveries(other, subs);
    var (t1, out) := EnqueueUniqueBatch(t, jobs);
    SameKeysOfTenants(req, other, subs);
    DeliveriesKeyed(req, subs);
    UniqueBatchKeepsIndex(t, jobs);
    forall i | 0 <= i < |jobs|
      ensures theirs[i].uniqueKey.Some? && out[i] in t1.live && HasKey(out[i], theirs[i].uniqueKey.value)
    {
      assert jobs[i] in jobs;
      UniqueBatchCovers(t, jobs, i);
    }
    HoldersAnswer(t1, theirs, out);
  }

  lemma {:induction false} HoldersAnswer(t: JobTable, jobs: seq<NewJob>, out: seq<Job>)
    requires UniqueIndex(t.live) && |out| == |jobs|
    requires forall i :: 0 <= i < |jobs| ==>
               jobs[i].uniqueKey.Some? && out[i] in t.live && HasKey(out[i], jobs[i].uniqueKey.value)
    ensures EnqueueUniqueBatch(t, jobs) == (t, out)
  {
    HeldBatchChangesNothing(t, jobs);
    UniqueBatchKeepsIndex(t, jobs);
    var answers := EnqueueUniqueBatch(t, jobs).1;
    assert |answers| == |out|;
    forall i | 0 <= i < |out| ensures answers[i] == out[i] {
      AnswerIsHolder(t, jobs, i, out[i]);
    }
    assert answers == out;
  }
}
