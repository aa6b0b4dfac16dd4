/** `PreparedStatementCache`: the statements a client has parsed and the executions in flight. */
module StatementCache {
  import opened WireBytes
  import opened Recency
  import Conn = ConnectionState

  /** An execution in flight: its text, and whether its parameters could not be resolved. */
  datatype Pending = Pending(query: Bytes, incomplete: bool)

  datatype Cache = Cache(statements: Bounded<Bytes, Conn.Statement>, pending: map<Bytes, Pending>)

  function Empty(): (c: Cache) {
    Cache(Bounded(map[], []), map[])
  }

  class PreparedStatementCache {
    const max: nat
    var statements: map<Bytes, Conn.Statement>
    var lru: seq<Bytes>
    var pending: map<Bytes, Pending>

    ghost function View(): Cache
      reads this
    {
      Cache(Bounded(statements, lru), pending)
    }

    constructor (max: nat)
      ensures this.max == max && View() == Empty()
    {
      this.max, statements, lru, pending := max, map[], [], map[];
    }

    method InsertStatement(name: Bytes, statement: Conn.Statement)
      modifies this`statements, this`lru
      ensures View() == old(View()).(statements := CacheInsert(old(View()).statements, max, name, statement))
    {
      if name in statements {
        lru := Without(lru, name);
      }
      ghost var before := Bounded(statements, lru);
      while |statements| >= max && lru != []
        invariant Evict(Bounded(statements, lru), max) == Evict(before, max)
        decreases |lru|
      {
        var oldest := lru[0];
        lru := lru[1..];
        statements := statements - {oldest};
      }
      statements := statements[name := statement];
      lru := lru + [name];
    }

    method GetStatement(name: Bytes) returns (r: Option<Conn.Statement>)
      modifies this`lru
      ensures (View().statements, r) == CacheGet(old(View()).statements, name)
      ensures View().pending == old(View()).pending
    {
      if name !in statements {
        return None;
      }
      lru := Without(lru, name) + [name];
      r := Some(statements[name]);
    }

    method RemoveStatement(name: Bytes)
      modifies this`statements, this`lru
      ensures View() == old(View()).(statements := Remove(old(View()).statements, name))
    {
      statements := statements - {name};
      lru := Without(lru, name);
    }

    method SetPending(portal: Bytes, p: Pending)
      modifies this`pending
      ensures View() == old(View()).(pending := old(View()).pending[portal := p])
    {
      pending := pending[portal := p];
    }

    method TakePending(portal: Bytes) returns (p: Option<Pending>)
      modifies this`pending
      ensures p == if portal in old(pending) then Some(old(pending)[portal]) else None
      ensures View() == old(View()).(pending := old(View()).pending - {portal})
    {
      p := if portal in pending then Some(pending[portal]) else None;
      pending := pending - {portal};
    }

    method ClearPending(portal: Bytes)
      modifies this`pending
      ensures View() == old(View()).(pending := old(View()).pending - {portal})
    {
      pending := pending - {portal};
    }

    method Clear()
      modifies this
      ensures View() == Empty()
    {
      statements, lru, pending := map[], [], map[];
    }
  }
}
