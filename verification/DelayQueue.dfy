/** The delayed queue: each script as the loop it is, and the consumer around them. */
module DelayQueue {
  import opened Common
  import opened ZSets
  import opened DelayQueueSpec
  import opened RetrySpec

  datatype Outcome = Accepted | QueueClosed | InvalidTask

  class DelayQueueStore {
    var ready: ZSet
    var processing: ZSet
    var bodies: map<Key, Task>
    var dead: seq<Task>
    var closed: bool

    ghost function State(): Queue
      reads this
    {
      Queue(ready, processing, bodies, dead)
    }

    constructor ()
      ensures State() == EMPTY && !closed
    {
      ready, processing, bodies, dead, closed := map[], map[], map[], [], false;
    }

    method EnqueueScript(member: Key, score: int, body: Task)
      modifies this`ready, this`bodies
      ensures State() == Enqueue(old(State()), member, score, body)
    {
      ready := ready[member := score];
      bodies := bodies[member := body];
    }

    /** at None is the zero time. */
    method EnqueueAt(key: Key, data: string, at: Option<int>, retries: nat) returns (r: Outcome)
      modifies this`ready, this`bodies
      ensures r == if closed then QueueClosed else if key.name == "" || at.None? then InvalidTask else Accepted
      ensures State() == if r.Accepted? then Enqueue(old(State()), key, at.value, Task(key, data, at.value, retries))
                         else old(State())
      ensures r.Accepted? ==>
                && key in ready && ready[key] == at.value
                && key in bodies && bodies[key] == Task(key, data, at.value, retries)
    {
      if closed {
        return QueueClosed;
      }
      if key.name == "" || at.None? {
        return InvalidTask;
      }
      EnqueueScript(key, at.value, Task(key, data, at.value, retries));
      r := Accepted;
    }

    method DequeueScript(now: int, batch: nat, visibleAt: int) returns (reply: Option<seq<Task>>)
      modifies this`ready, this`processing
      ensures State() == Dequeue(old(State()), now, batch, visibleAt)
      ensures reply == DequeueReply(old(State()), now, batch)
    {
      var results := ZRangeByScore(ready, now, batch);
      if |results| == 0 {
        MoveNothing(ready, visibleAt);
        MoveNothing(processing, visibleAt);
        return None;
      }
      var tasks := TakeOut(results, visibleAt);
      reply := if |tasks| == 0 then None else Some(tasks);
    }

    /** The loop that leases the members a query returned and collects their bodies. */
    method TakeOut(results: seq<Key>, visibleAt: int) returns (tasks: seq<Task>)
      modifies this`ready, this`processing
      ensures State() == MoveOut(old(State()), results, visibleAt)
      ensures tasks == BodiesOf(bodies, results)
    {
      hide Remaining, Scored, BodiesOf;
      tasks := [];
      MoveNothing(ready, visibleAt);
      MoveNothing(processing, visibleAt);
      assert results[..0] == [] && results[0..] == results;
      for i := 0 to |results|
        invariant ready == Remaining(old(ready), results[..i])
        invariant processing == old(processing) + Scored(results[..i], visibleAt)
        invariant tasks + BodiesOf(bodies, results[i..]) == BodiesOf(bodies, results)
      {
        MoveOneMore(old(ready), results, i, visibleAt);
        MoveOneMore(old(processing), results, i, visibleAt);
        BodiesOneMore(bodies, results, i, tasks);
        var member := results[i];
        ready := ready - {member};
        processing := processing[member := visibleAt];
        if member in bodies {
          tasks := tasks + [bodies[member]];
        }
      }
      assert results[..|results|] == results && results[|results|..] == [];
      assert BodiesOf(bodies, []) == [];
    }

    method AckScript(member: Key) returns (removed: nat)
      modifies this`processing, this`bodies
      ensures State() == Ack(old(State()), member)
      ensures removed == if member in old(processing) then 1 else 0
    {
      removed := if member in processing then 1 else 0;
      processing := processing - {member};
      if removed > 0 {
        bodies := bodies - {member};
      }
    }

    method RequeueScript(now: int, batch: nat) returns (count: nat)
      modifies this`ready, this`processing
      ensures State() == Requeue(old(State()), now, batch)
      ensures count == |Range(old(processing), now, batch)|
    {
      var results := ZRangeByScore(processing, now, batch);
      if |results| == 0 {
        MoveNothing(ready, now);
        MoveNothing(processing, now);
        return 0;
      }
      PutBack(results, now);
      count := |results|;
    }

    /** The loop that puts overdue leases back, ready at once. */
    method PutBack(results: seq<Key>, now: int)
      modifies this`ready, this`processing
      ensures State() == MoveStale(old(State()), results, now)
    {
      hide Remaining, Scored;
      MoveNothing(ready, now);
      MoveNothing(processing, now);
      assert results[..0] == [];
      for i := 0 to |results|
        invariant processing == Remaining(old(processing), results[..i])
        invariant ready == old(ready) + Scored(results[..i], now)
      {
        MoveOneMore(old(ready), results, i, now);
        MoveOneMore(old(processing), results, i, now);
        var member := results[i];
        processing := processing - {member};
        ready := ready[member := now];
      }
      assert results[..|results|] == results;
    }

    /** The combined script is a requeue followed by a dequeue, in state and in reply. */
    method PollScript(now: int, batch: nat, visibleAt: int) returns (reply: Option<seq<Task>>)
      modifies this`ready, this`processing
      ensures State() == Dequeue(Requeue(old(State()), now, batch), now, batch, visibleAt)
      ensures reply == DequeueReply(Requeue(old(State()), now, batch), now, batch)
    {
      var stale := ZRangeByScore(processing, now, batch);
      PutBack(stale, now);
      var results := ZRangeByScore(ready, now, batch);
      if |results| == 0 {
        MoveNothing(ready, visibleAt);
        MoveNothing(processing, visibleAt);
        return None;
      }
      var tasks := TakeOut(results, visibleAt);
      reply := if |tasks| == 0 then None else Some(tasks);
    }

    method CancelScript(member: Key) returns (removed: nat)
      modifies this`ready, this`processing, this`bodies
      ensures State() == Cancel(old(State()), member)
      ensures member !in ready && member !in processing && member !in bodies
      ensures removed == (if member in old(ready) then 1 else 0) + (if member in old(processing) then 1 else 0)
    {
      removed := (if member in ready then 1 else 0) + (if member in processing then 1 else 0);
      ready := ready - {member};
      processing := processing - {member};
      bodies := bodies - {member};
    }

    /** A consumer's work on one task: now is its clock when the handler returned; acked and done tell whether
        Redis executes the acknowledgement and the request after it, whose errors are only logged. Once the
        queue is closed the retry is refused before it is sent. */
    method HandleTask(task: Task, succeeded: bool, now: int, maxRetries: nat, retryDelay: int, acked: bool, done: bool)
      modifies this`ready, this`processing, this`bodies, this`dead
      ensures succeeded ==> State() == AckIf(old(State()), task.key, acked)
      ensures !succeeded ==>
                var sent := task.retries >= maxRetries || !(closed || task.key.name == "");
                State() == HandleFailure(old(State()), task, now, maxRetries, retryDelay, acked, done && sent)
    {
      if acked {
        var removed := AckScript(task.key);
      }
      if !succeeded && done {
        if task.retries >= maxRetries {
          dead := [task] + dead;
        } else {
          var retries := task.retries + 1;
          var delay := retryDelay * Pow2(retries);
          var r := EnqueueAt(task.key, task.data, Some(now + delay), retries);
        }
      }
    }

    /** When the worker pool refuses a task it goes back as it was, due at once. */
    method PutBackRefused(task: Task, now: int, acked: bool, done: bool)
      modifies this`ready, this`processing, this`bodies
      ensures var q := AckIf(old(State()), task.key, acked);
              State() == if done && !(closed || task.key.name == "") then Return(q, task, now) else q
    {
      if acked {
        var removed := AckScript(task.key);
      }
      if done {
        var r := EnqueueAt(task.key, task.data, Some(now), task.retries);
      }
    }
  }
}
