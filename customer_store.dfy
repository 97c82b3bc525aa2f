/** The customer repository of db_utils.py over the `customers` table of
    create_tables.py. The table lives in a Store object; each repository
    operation is a method that opens a pool, runs its statement and closes
    the pool again, and degrades every failure to [], None or False. */
module CustomerStore {
  import opened Values
  import opened Text
  import opened ILike

  /** The optional arguments of update_customer; None keeps the current value. */
  datatype Changes = Changes(
    name: Option<string>,
    email: Option<string>,
    age: Option<int>,
    preferPackage: Option<int>)

  /** A row whose integers fit its INTEGER columns. */
  predicate InRange(c: Customer)
  {
    IsInt32(c.id) && FitsColumn(c.age) && FitsColumn(c.preferPackage)
  }

  predicate NoDuplicates(ids: seq<int>)
  {
    forall i, j :: 0 <= i < j < |ids| ==> ids[i] != ids[j]
  }

  /** The constraints of `customers`: every row is filed under its own
      SERIAL id, below the next value of the sequence; emails are UNIQUE;
      name and email are NOT NULL by their type. `order` is the order in
      which a full scan meets the rows: each id exactly once. */
  ghost predicate TableInvariant(rows: map<int, Customer>, order: seq<int>, nextId: int)
  {
    && 1 <= nextId <= Int32Max + 1
    && (forall id :: id in rows ==> rows[id].id == id && 1 <= id < nextId && InRange(rows[id]))
    && (forall a, b :: a in rows && b in rows && rows[a].email == rows[b].email ==> a == b)
    && NoDuplicates(order)
    && (forall i :: 0 <= i < |order| ==> order[i] in rows)
    && (forall id :: id in rows ==> id in order)
  }

  predicate EmailTaken(rows: map<int, Customer>, email: string)
  {
    exists id :: id in rows && rows[id].email == email
  }

  predicate EmailTakenByOther(rows: map<int, Customer>, id: int, email: string)
  {
    exists other :: other in rows && other != id && rows[other].email == email
  }

  /** The rows in scan order. */
  function Scan(order: seq<int>, rows: map<int, Customer>): seq<Customer>
    requires forall i :: 0 <= i < |order| ==> order[i] in rows
  {
    seq(|order|, i requires 0 <= i < |order| => rows[order[i]])
  }

  /** [dict(row) for row in rows]. */
  function RowsOf(customers: seq<Customer>): (rs: seq<Row>)
    ensures |rs| == |customers|
    ensures forall i :: 0 <= i < |rs| ==> rs[i].Keys == Columns && rs[i]["id"] == Int(customers[i].id)
  {
    seq(|customers|, i requires 0 <= i < |customers| => AsRow(customers[i]))
  }

  /** A full scan meets every stored record, and no record twice. */
  lemma ScanListsEveryRecordOnce(rows: map<int, Customer>, order: seq<int>, nextId: int)
    requires TableInvariant(rows, order, nextId)
    ensures forall c :: c in Scan(order, rows) <==> c.id in rows && rows[c.id] == c
    ensures forall i, j :: 0 <= i < j < |order| ==> Scan(order, rows)[i] != Scan(order, rows)[j]
  {
    var s := Scan(order, rows);
    forall c: Customer | c.id in rows && rows[c.id] == c ensures c in s {
      var i :| 0 <= i < |order| && order[i] == c.id;
      assert s[i] == c;
    }
    forall i | 0 <= i < |s| ensures s[i].id in rows && rows[s[i].id] == s[i] {
      assert order[i] in rows && s[i] == rows[order[i]];
      assert rows[order[i]].id == order[i];
    }
  }

  /** The rows the name search returns, in scan order. */
  function Matching(customers: seq<Customer>, fragment: string): (r: seq<Customer>)
    ensures forall c :: c in r <==> c in customers && Like(Pattern(fragment), c.name)
    ensures |r| <= |customers|
    decreases |customers|
  {
    if customers == [] then []
    else
      (if Like(Pattern(fragment), customers[0].name) then [customers[0]] else [])
      + Matching(customers[1..], fragment)
  }

  /** The search keeps the scan order: searching a longer scan gives the
      matches of its first part followed by those of the rest. */
  lemma {:induction false} MatchingKeepsOrder(a: seq<Customer>, b: seq<Customer>, fragment: string)
    ensures Matching(a + b, fragment) == Matching(a, fragment) + Matching(b, fragment)
    decreases |a|
  {
    if a == [] {
      assert a + b == b;
    } else {
      assert (a + b)[0] == a[0] && (a + b)[1..] == a[1..] + b;
      MatchingKeepsOrder(a[1..], b, fragment);
    }
  }

  /** For a fragment free of ILIKE metacharacters the search returns exactly
      the customers whose name contains the fragment, ignoring case. */
  lemma SearchIsSubstring(customers: seq<Customer>, fragment: string)
    requires Literal(fragment)
    ensures forall c :: c in Matching(customers, fragment) <==>
      c in customers && ContainsIgnoringCase(c.name, fragment)
  {
    forall c | c in customers {
      PatternMeansSubstring(fragment, c.name);
    }
  }

  /** The scan order after a DELETE of one id. */
  function Without(order: seq<int>, id: int): (r: seq<int>)
    ensures forall x :: x in r <==> x in order && x != id
    ensures NoDuplicates(order) ==> NoDuplicates(r)
    decreases |order|
  {
    if order == [] then []
    else
      var rest := Without(order[1..], id);
      assert NoDuplicates(order) ==> order[0] !in order[1..] by {
        if NoDuplicates(order) {
          forall k | 0 <= k < |order[1..]| ensures order[1..][k] != order[0] {
            assert order[1..][k] == order[k + 1];
          }
        }
      }
      assert NoDuplicates(order) ==> NoDuplicates(order[1..]) by {
        if NoDuplicates(order) {
          forall i, j | 0 <= i < j < |order[1..]| ensures order[1..][i] != order[1..][j] {
            assert order[1..][i] == order[i + 1] && order[1..][j] == order[j + 1];
          }
        }
      }
      if order[0] == id then rest else [order[0]] + rest
  }

  /** update_customer's merge (db_utils.py:108-111): a supplied value wins,
      None keeps the current one; the id and created_at are never touched. */
  function Merge(current: Customer, changes: Changes): (r: Customer)
    ensures r.id == current.id && r.createdAt == current.createdAt
    ensures changes.name.Some? ==> r.name == changes.name.value
    ensures changes.name.None? ==> r.name == current.name
    ensures changes.email.Some? ==> r.email == changes.email.value
    ensures changes.email.None? ==> r.email == current.email
    ensures changes.age.Some? ==> r.age == changes.age
    ensures changes.age.None? ==> r.age == current.age
    ensures changes.preferPackage.Some? ==> r.preferPackage == changes.preferPackage
    ensures changes.preferPackage.None? ==> r.preferPackage == current.preferPackage
  {
    current.(
      name := if changes.name.Some? then changes.name.value else current.name,
      email := if changes.email.Some? then changes.email.value else current.email,
      age := if changes.age.Some? then changes.age else current.age,
      preferPackage := if changes.preferPackage.Some? then changes.preferPackage else current.preferPackage)
  }

  /** Applying the same changes twice is applying them once. */
  lemma MergeIdempotent(current: Customer, changes: Changes)
    ensures Merge(Merge(current, changes), changes) == Merge(current, changes)
  {
  }

  /** No changes at all rewrite the row as it was. */
  lemma MergeNothing(current: Customer)
    ensures Merge(current, Changes(None, None, None, None)) == current
  {
  }

  /** The INSERT reaches the table: the pool opened, the query ran, both
      integers fit INTEGER, the SERIAL sequence is not exhausted and the
      email is free. */
  predicate InsertAccepted(fault: Fault, rows: map<int, Customer>, nextId: int,
                           email: string, age: Option<int>, preferPackage: Option<int>)
  {
    SequenceAdvances(fault, nextId, age, preferPackage) && !EmailTaken(rows, email)
  }

  /** The INSERT draws a value from the SERIAL sequence, which a later
      UNIQUE violation does not give back. */
  predicate SequenceAdvances(fault: Fault, nextId: int, age: Option<int>, preferPackage: Option<int>)
  {
    fault == Healthy && FitsColumn(age) && FitsColumn(preferPackage) && nextId <= Int32Max
  }

  /** Both statements of update_customer succeed: the id can be sent and
      exists, the merged integers fit, and the merged email is not another
      customer's. */
  predicate UpdateAccepted(fault: Fault, rows: map<int, Customer>, id: int, changes: Changes)
  {
    && fault == Healthy && IsInt32(id) && id in rows
    && InRange(Merge(rows[id], changes))
    && !EmailTakenByOther(rows, id, Merge(rows[id], changes).email)
  }

  /** A successful insert keeps the table constraints. */
  lemma InsertKeepsInvariant(rows: map<int, Customer>, order: seq<int>, nextId: int, c: Customer)
    requires TableInvariant(rows, order, nextId)
    requires c.id == nextId <= Int32Max && InRange(c) && !EmailTaken(rows, c.email)
    ensures TableInvariant(rows[c.id := c], order + [c.id], nextId + 1)
  {
    var order' := order + [c.id];
    assert c.id !in order;
    forall i, j | 0 <= i < j < |order'| ensures order'[i] != order'[j] {
      if j == |order| {
        assert order'[i] == order[i];
      } else {
        assert order'[i] == order[i] && order'[j] == order[j];
      }
    }
  }

  /** A successful update keeps the table constraints. */
  lemma UpdateKeepsInvariant(rows: map<int, Customer>, order: seq<int>, nextId: int, id: int, changes: Changes)
    requires TableInvariant(rows, order, nextId)
    requires UpdateAccepted(Healthy, rows, id, changes)
    ensures TableInvariant(rows[id := Merge(rows[id], changes)], order, nextId)
  {
  }

  /** A DELETE keeps the table constraints. */
  lemma DeleteKeepsInvariant(rows: map<int, Customer>, order: seq<int>, nextId: int, id: int)
    requires TableInvariant(rows, order, nextId)
    ensures TableInvariant(rows - {id}, Without(order, id), nextId)
  {
    var order' := Without(order, id);
    forall i | 0 <= i < |order'| ensures order'[i] in rows - {id} {
      assert order'[i] in order';
    }
  }

  /** PostgreSQL's command tag for a DELETE that removed `count` rows. */
  function DeleteTag(count: nat): (tag: string)
    ensures StartsWith(tag, "DELETE ") && ParseNat(tag[7..]) == count
  {
    ParseNatToString(count);
    assert ("DELETE " + NatToString(count))[7..] == NatToString(count);
    "DELETE " + NatToString(count)
  }

  /** The check `'DELETE' in result` of db_utils.py:134 holds for every tag
      a DELETE returns, "DELETE 0" included. */
  lemma DeleteTagAlwaysPasses(count: nat)
    ensures Contains(DeleteTag(count), "DELETE")
  {
    ContainsInfix("", "DELETE", " " + NatToString(count));
    assert "" + "DELETE" + (" " + NatToString(count)) == DeleteTag(count);
  }

  class Store {
    /** The `customers` table, by id. */
    var rows: map<int, Customer>
    /** The order in which `SELECT *` returns the rows. */
    var order: seq<int>
    /** The next value of the SERIAL sequence behind `id`. */
    var nextId: int
    /** Pools created and not yet closed. */
    var openPools: nat
    /** Calls of get_connection_pool, successful or not. */
    var connectAttempts: nat

    ghost predicate Valid()
      reads this
    {
      TableInvariant(rows, order, nextId)
    }

    /** An empty table whose sequence starts at 1. */
    constructor ()
      ensures Valid()
      ensures rows == map[] && order == [] && nextId == 1
      ensures openPools == 0 && connectAttempts == 0
    {
      rows, order, nextId := map[], [], 1;
      openPools, connectAttempts := 0, 0;
    }

    /** The records in the order a full scan returns them. */
    function Customers(): seq<Customer>
      reads this
      requires Valid()
    {
      Scan(order, rows)
    }

    /** get_connection_pool (db_utils.py:14-21): one attempt; on failure
        nothing is left open. */
    method OpenPool(fault: Fault) returns (pool: bool)
      modifies this`openPools, this`connectAttempts
      ensures pool <==> fault != PoolUnavailable
      ensures connectAttempts == old(connectAttempts) + 1
      ensures openPools == old(openPools) + (if pool then 1 else 0)
    {
      connectAttempts := connectAttempts + 1;
      pool := fault != PoolUnavailable;
      if pool {
        openPools := openPools + 1;
      }
    }

    /** pool.close() in the `finally` blocks. */
    method ClosePool()
      requires openPools > 0
      modifies this`openPools
      ensures openPools == old(openPools) - 1
    {
      openPools := openPools - 1;
    }

    /** get_customers (db_utils.py:23-39): every row, in scan order, or []
        on any failure. Reads only; the pool it opens is closed again. */
    method GetCustomers(fault: Fault) returns (customers: seq<Row>)
      requires Valid()
      modifies this`openPools, this`connectAttempts
      ensures Valid()
      ensures openPools == old(openPools) && connectAttempts == old(connectAttempts) + 1
      ensures customers == if fault == Healthy then RowsOf(Customers()) else []
    {
      var pool := OpenPool(fault);
      if !pool {
        return [];
      }
      if fault == QueryError {
        customers := [];
      } else {
        customers := RowsOf(Scan(order, rows));
      }
      ClosePool();
    }

    /** get_customer_by_id (db_utils.py:41-55): the row with that id, or
        None when there is none, the id does not fit INTEGER, or the call
        fails. Reads only. */
    method GetCustomerById(id: int, fault: Fault) returns (customer: Option<Row>)
      requires Valid()
      modifies this`openPools, this`connectAttempts
      ensures Valid()
      ensures openPools == old(openPools) && connectAttempts == old(connectAttempts) + 1
      ensures customer.Some? <==> fault == Healthy && IsInt32(id) && id in rows
      ensures customer.Some? ==> customer.value == AsRow(rows[id]) && rows[id].id == id
    {
      var pool := OpenPool(fault);
      if !pool {
        return None;
      }
      if fault == QueryError || !IsInt32(id) {
        customer := None;
      } else if id in rows {
        customer := Some(AsRow(rows[id]));
      } else {
        customer := None;
      }
      ClosePool();
    }

    /** get_customer_by_name (db_utils.py:57-73): the rows whose name
        matches `%name%` under ILIKE, in scan order, or [] on failure. */
    method GetCustomerByName(name: string, fault: Fault) returns (customers: seq<Row>)
      requires Valid()
      modifies this`openPools, this`connectAttempts
      ensures Valid()
      ensures openPools == old(openPools) && connectAttempts == old(connectAttempts) + 1
      ensures customers == if fault == Healthy then RowsOf(Matching(Customers(), name)) else []
    {
      var pool := OpenPool(fault);
      if !pool {
        return [];
      }
      if fault == QueryError {
        customers := [];
      } else {
        customers := RowsOf(Matching(Scan(order, rows), name));
      }
      ClosePool();
    }

    /** add_customer (db_utils.py:75-92): INSERT ... RETURNING *. On
        success exactly one row is added, under the next SERIAL id, with the
        given fields and created_at `now`, and returned. A duplicate email,
        an integer that does not fit, an exhausted sequence or a failure
        return None and leave the rows as they were. */
    method AddCustomer(name: string, email: string, age: Option<int>, preferPackage: Option<int>,
                       now: Timestamp, fault: Fault)
      returns (customer: Option<Row>)
      requires Valid()
      modifies this
      ensures Valid()
      ensures openPools == old(openPools) && connectAttempts == old(connectAttempts) + 1
      ensures nextId == old(nextId) + (if SequenceAdvances(fault, old(nextId), age, preferPackage) then 1 else 0)
      ensures var c := Customer(old(nextId), name, email, age, preferPackage, now);
        if InsertAccepted(fault, old(rows), old(nextId), email, age, preferPackage) then
          && c.id !in old(rows)
          && customer == Some(AsRow(c))
          && rows == old(rows)[c.id := c]
          && order == old(order) + [c.id]
        else
          customer == None && rows == old(rows) && order == old(order)
    {
      var pool := OpenPool(fault);
      if !pool {
        return None;
      }
      if fault == QueryError || !FitsColumn(age) || !FitsColumn(preferPackage) || nextId > Int32Max {
        customer := None;
      } else {
        var c := Customer(nextId, name, email, age, preferPackage, now);
        nextId := nextId + 1;
        if EmailTaken(rows, email) {
          customer := None;
        } else {
          InsertKeepsInvariant(rows, order, c.id, c);
          rows := rows[c.id := c];
          order := order + [c.id];
          customer := Some(AsRow(c));
        }
      }
      ClosePool();
    }

    /** update_customer (db_utils.py:94-122): read the row, merge the
        supplied fields over it, rewrite it. On success only that row
        changes, to the merged record, which is returned; otherwise (no such
        id, an integer that does not fit, the merged email is another
        customer's, a failure) None and nothing is written. */
    method UpdateCustomer(id: int, changes: Changes, fault: Fault) returns (customer: Option<Row>)
      requires Valid()
      modifies this
      ensures Valid()
      ensures openPools == old(openPools) && connectAttempts == old(connectAttempts) + 1
      ensures order == old(order) && nextId == old(nextId)
      ensures if UpdateAccepted(fault, old(rows), id, changes) then
          var c := Merge(old(rows)[id], changes);
          customer == Some(AsRow(c)) && rows == old(rows)[id := c]
        else
          customer == None && rows == old(rows)
    {
      var pool := OpenPool(fault);
      if !pool {
        return None;
      }
      if fault == QueryError || !IsInt32(id) || id !in rows {
        customer := None;
      } else {
        var merged := Merge(rows[id], changes);
        if !InRange(merged) || EmailTakenByOther(rows, id, merged.email) {
          customer := None;
        } else {
          UpdateKeepsInvariant(rows, order, nextId, id, changes);
          rows := rows[id := merged];
          customer := Some(AsRow(merged));
        }
      }
      ClosePool();
    }

    /** delete_customer (db_utils.py:124-139): removes the row with that id
        if there is one, and answers True whenever the DELETE ran, whether
        or not a row matched; False only when the pool or the query failed
        (an id that does not fit INTEGER fails the query). */
    method DeleteCustomer(id: int, fault: Fault) returns (deleted: bool)
      requires Valid()
      modifies this
      ensures Valid()
      ensures openPools == old(openPools) && connectAttempts == old(connectAttempts) + 1
      ensures nextId == old(nextId)
      ensures deleted <==> fault == Healthy && IsInt32(id)
      ensures deleted ==> rows == old(rows) - {id} && order == Without(old(order), id) && id !in rows
      ensures !deleted ==> rows == old(rows) && order == old(order)
    {
      var pool := OpenPool(fault);
      if !pool {
        return false;
      }
      if fault == QueryError || !IsInt32(id) {
        deleted := false;
      } else {
        var count := if id in rows then 1 else 0;
        DeleteKeepsInvariant(rows, order, nextId, id);
        rows := rows - {id};
        order := Without(order, id);
        var tag := DeleteTag(count);
        DeleteTagAlwaysPasses(count);
        deleted := Contains(tag, "DELETE");
      }
      ClosePool();
    }
  }
}
