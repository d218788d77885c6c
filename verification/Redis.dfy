/** The Redis server as the limiters see it: one store, changed by one script at a time. */
module RedisServer {
  import opened Options
  import opened Scripts

  class Redis {
    var store: Store

    constructor ()
      ensures store == Scripts.EMPTY
    {
      store := Scripts.EMPTY;
    }

    /** A member of least score; Redis breaks ties by the member's text, which is not modelled. */
    method First() returns (head: Option<Task>)
      ensures IsHead(store.buffer, head)
    {
      if store.buffer == map[] { return None; }
      var t :| t in store.buffer;
      var rest := store.buffer.Keys - {t};
      while rest != {}
        invariant t in store.buffer && rest <= store.buffer.Keys
        invariant forall u :: u in store.buffer ==> store.buffer[t] <= store.buffer[u] || u in rest
        decreases rest
      {
        var u :| u in rest;
        if store.buffer[u] < store.buffer[t] { t := u; }
        rest := rest - {u};
      }
      return Some(t);
    }

    method Consume(s: Settings, nowMs: nat) returns (head: Option<Task>, result: ConsumeResult)
      requires s.Valid()
      modifies this
      ensures IsHead(old(store).buffer, head)
      ensures (store, result) == Scripts.Consume(old(store), s, nowMs, head)
    {
      head := First();
      var after;
      after, result := Scripts.Consume(store, s, nowMs, head).0, Scripts.Consume(store, s, nowMs, head).1;
      store := after;
    }

    /** `SET marker NX EX ttl`. */
    method Claim(id: TaskId, ttl: int, nowMs: nat) returns (claimed: bool)
      modifies this
      ensures (store, claimed) == Scripts.Claim(old(store), id, ttl, nowMs)
    {
      var result := Scripts.Claim(store, id, ttl, nowMs);
      store, claimed := result.0, result.1;
    }

    /** `DEL marker`. */
    method Unclaim(id: TaskId)
      modifies this
      ensures store == Scripts.Unclaim(old(store), id)
    {
      store := Scripts.Unclaim(store, id);
    }

    method Schedule(t: Task, priority: real)
      modifies this
      ensures store == Scripts.Schedule(old(store), t, priority)
    {
      store := Scripts.Schedule(store, t, priority);
    }

    method Release(id: TaskId)
      modifies this
      ensures store == Scripts.Release(old(store), id)
    {
      store := Scripts.Release(store, id);
    }

    method Renew(id: TaskId, duration: int, nowMs: nat) returns (renewed: bool)
      modifies this
      ensures (store, renewed) == Scripts.Renew(old(store), id, duration, nowMs)
    {
      var result := Scripts.Renew(store, id, duration, nowMs);
      store, renewed := result.0, result.1;
    }
  }
}
