/** The standalone JDBC connection pool (`config/ConnectionPool.java`): a bounded FIFO
    queue of idle connections and a list of the connections handed out. Opening a
    connection with the driver, and whether the wait for an idle one is interrupted,
    are inputs; an empty queue fails at once instead of blocking for the timeout. */
module ConnectionPools {
  import opened Common

  /** The size a pool gets when none is given. */
  const DEFAULT_POOL_SIZE: int := 10

  /** A JDBC connection, as far as the pool looks at it. */
  class Connection {
    var closed: bool
    var autoCommit: bool

    /** A connection the driver has just opened. */
    constructor ()
      ensures !closed && autoCommit
    {
      closed := false;
      autoCommit := true;
    }
  }

  predicate IsTrue(b: bool) { b }

  lemma {:induction false} CountWhereSnoc<T>(s: seq<T>, x: T, p: T -> bool)
    ensures CountWhere(s + [x], p) == CountWhere(s, p) + if p(x) then 1 else 0
  {
    if s == [] {
      assert s + [x] == [x];
    } else {
      assert (s + [x])[1..] == s[1..] + [x];
      CountWhereSnoc(s[1..], x, p);
    }
  }

  /** `List.remove(Object)`: the list without the first occurrence of `c`, or the
      list itself when `c` is not in it. */
  function RemoveFirst(s: seq<Connection>, c: Connection): (r: seq<Connection>)
    ensures c in s ==> |r| == |s| - 1 && multiset(r) == multiset(s) - multiset{c}
    ensures c !in s ==> r == s
  {
    if s == [] then []
    else
      assert s == [s[0]] + s[1..];
      if s[0] == c then s[1..] else [s[0]] + RemoveFirst(s[1..], c)
  }

  /** `BlockingQueue.offer`: the element joins the tail when there is room and is
      dropped otherwise. */
  function Offer(q: seq<Connection>, c: Connection, capacity: int): (r: seq<Connection>)
    ensures |q| < capacity ==> r == q + [c]
    ensures |q| >= capacity ==> r == q
  {
    if |q| < capacity then q + [c] else q
  }

  /** Handing a connection out and taking it back leaves the handed-out list as it
      was, as a bag; it is the same list when the connection was not out already. */
  lemma {:induction false} AcquireThenRelease(used: seq<Connection>, c: Connection)
    ensures multiset(RemoveFirst(used + [c], c)) == multiset(used)
    ensures c !in used ==> RemoveFirst(used + [c], c) == used
  {
    assert multiset(used + [c]) == multiset(used) + multiset{c};
    if c !in used {
      ReleaseLastAdded(used, c);
    }
  }

  lemma {:induction false} ReleaseLastAdded(used: seq<Connection>, c: Connection)
    requires c !in used
    ensures RemoveFirst(used + [c], c) == used
  {
    if used == [] {
      assert used + [c] == [c];
    } else {
      assert (used + [c])[1..] == used[1..] + [c];
      ReleaseLastAdded(used[1..], c);
      assert used == [used[0]] + used[1..];
    }
  }

  /** An offer never overfills the queue. */
  lemma OfferBounded(q: seq<Connection>, c: Connection, capacity: int)
    requires |q| <= capacity
    ensures |Offer(q, c, capacity)| <= capacity
  {
  }

  class ConnectionPool {
    const poolSize: int
    var idle: seq<Connection>
    var used: seq<Connection>

    /** The idle queue never holds more than its capacity. */
    ghost predicate Valid()
      reads this
    {
      1 <= poolSize && |idle| <= poolSize
    }

    /** Opens `opens` connections in turn; the ones whose opening fails (`false`) are
        skipped, the others queue up in order. */
    static method OpenAll(opens: seq<bool>) returns (q: seq<Connection>)
      ensures |q| == CountWhere(opens, IsTrue)
      ensures forall c :: c in q ==> fresh(c) && !c.closed && c.autoCommit
      ensures forall i, j :: 0 <= i < j < |q| ==> q[i] != q[j]
    {
      q := [];
      var i := 0;
      while i < |opens|
        invariant 0 <= i <= |opens|
        invariant |q| == CountWhere(opens[..i], IsTrue)
        invariant forall c :: c in q ==> fresh(c) && !c.closed && c.autoCommit
        invariant forall k, j :: 0 <= k < j < |q| ==> q[k] != q[j]
      {
        assert opens[..i + 1] == opens[..i] + [opens[i]];
        CountWhereSnoc(opens[..i], opens[i], IsTrue);
        if opens[i] {
          var c := new Connection();
          q := q + [c];
        }
        i := i + 1;
      }
      assert opens[..i] == opens;
    }

    /** A pool of `poolSize` slots filled with the connections that open. */
    constructor (poolSize: int, opens: seq<bool>)
      requires 1 <= poolSize && |opens| == poolSize
      ensures Valid() && this.poolSize == poolSize
      ensures used == [] && |idle| == CountWhere(opens, IsTrue)
      ensures forall c :: c in idle ==> fresh(c) && !c.closed && c.autoCommit
      ensures forall i, j :: 0 <= i < j < |idle| ==> idle[i] != idle[j]
    {
      this.poolSize := poolSize;
      var q := OpenAll(opens);
      idle := q;
      used := [];
    }

    /** A pool of the default size. */
    constructor WithDefaultSize(opens: seq<bool>)
      requires |opens| == DEFAULT_POOL_SIZE
      ensures Valid() && poolSize == DEFAULT_POOL_SIZE
      ensures used == [] && |idle| == CountWhere(opens, IsTrue)
      ensures forall c :: c in idle ==> fresh(c) && !c.closed && c.autoCommit
    {
      poolSize := DEFAULT_POOL_SIZE;
      var q := OpenAll(opens);
      idle := q;
      used := [];
    }

    /** The connections the pool tracks, idle and handed out. */
    function PoolSize(): (n: nat)
      reads this
      ensures n == |idle| + |used|
    {
      |idle| + |used|
    }

    function AvailableConnections(): (n: nat)
      reads this
      ensures n == |idle| && n == PoolSize() - |used|
    {
      |idle|
    }

    function UsedConnections(): (n: nat)
      reads this
      ensures n == |used| && n == PoolSize() - |idle|
    {
      |used|
    }

    /** Takes the head of the idle queue and hands it out, opening a replacement when
        the head has been closed. An empty queue or an interrupted wait fails with
        nothing changed; a replacement that fails to open loses the closed head. */
    method GetConnection(interrupted: bool, reopens: bool) returns (r: Result<Connection>)
      requires Valid()
      modifies this
      ensures Valid()
      ensures r.Err? <==> interrupted || old(idle) == [] || (old(idle)[0].closed && !reopens)
      ensures r.Err? ==> r.error == SqlFailure && used == old(used)
      ensures interrupted || old(idle) == [] ==> idle == old(idle)
      ensures !interrupted && old(idle) != [] ==> idle == old(idle)[1..]
      ensures r.Ok? ==> used == old(used) + [r.value] && !r.value.closed
      ensures r.Ok? && !old(idle)[0].closed ==> r.value == old(idle)[0]
      ensures r.Ok? && old(idle)[0].closed ==> fresh(r.value) && r.value.autoCommit
      ensures r.Ok? ==> PoolSize() == old(PoolSize())
      ensures r.Err? && !interrupted && old(idle) != [] ==> PoolSize() == old(PoolSize()) - 1
    {
      if interrupted || idle == [] {
        return Err(SqlFailure);
      }
      var connection := idle[0];
      idle := idle[1..];
      if connection.closed {
        if !reopens {
          return Err(SqlFailure);
        }
        connection := new Connection();
      }
      used := used + [connection];
      r := Ok(connection);
    }

    /** Takes a connection back: it leaves the handed-out list, and an open one gets
        auto-commit back and joins the idle queue if there is room, whether or not it
        was handed out. A closed one is not queued; `null` changes nothing. */
    method ReleaseConnection(connection: Connection?)
      requires Valid()
      modifies this, connection
      ensures Valid()
      ensures connection == null ==> idle == old(idle) && used == old(used)
      ensures connection != null ==> used == RemoveFirst(old(used), connection) && connection.closed == old(connection.closed)
      ensures connection != null && !old(connection.closed) ==> idle == Offer(old(idle), connection, poolSize) && connection.autoCommit
      ensures connection != null && old(connection.closed) ==> idle == old(idle) && connection.autoCommit == old(connection.autoCommit)
    {
      if connection != null {
        used := RemoveFirst(used, connection);
        if !connection.closed {
          if !connection.autoCommit {
            connection.autoCommit := true;
          }
          OfferBounded(idle, connection, poolSize);
          idle := Offer(idle, connection, poolSize);
        }
      }
    }

    /** Closes each connection of the list that is still open. */
    static method CloseConnections(connections: seq<Connection>)
      modifies set c | c in connections
      ensures forall c :: c in connections ==> c.closed && c.autoCommit == old(c.autoCommit)
    {
      var i := 0;
      while i < |connections|
        invariant 0 <= i <= |connections|
        invariant forall k :: 0 <= k < i ==> connections[k].closed
        invariant forall c :: c in connections ==> c.autoCommit == old(c.autoCommit)
      {
        var c := connections[i];
        if !c.closed {
          c.closed := true;
        }
        i := i + 1;
      }
    }

    /** Closes every connection the pool tracks and forgets the handed-out ones; the
        idle queue is closed through a copy, so it keeps its closed connections. */
    method CloseAllConnections()
      requires Valid()
      modifies this, set c | c in used || c in idle
      ensures Valid()
      ensures used == [] && idle == old(idle)
      ensures forall c :: c in old(used) || c in idle ==> c.closed
    {
      CloseConnections(used);
      used := [];
      CloseConnections(idle);
    }
  }
}
