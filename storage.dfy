/**
 * The database context: one table per entity, each a map from key to record,
 * plus the generic table operations the repositories are built from.
 */
module Storage {
  import opened Domain

  /** The tables of the task tracker. Repositories and services read and update them in place. */
  class Store {
    var users: map<int, User>
    var admins: map<int, AdminRecord>
    var managers: map<int, ManagerRecord>
    var employees: map<int, EmployeeRecord>
    var projects: map<int, Project>
    var teams: map<int, Team>
    var tasks: map<int, Task>
    /** The team-member relation of the older repository: position by (team, user). */
    var members: map<MemberKey, string>

    constructor ()
      ensures users == map[] && admins == map[] && managers == map[] && employees == map[]
      ensures projects == map[] && teams == map[] && tasks == map[] && members == map[]
    {
      users, admins, managers, employees := map[], map[], map[], map[];
      projects, teams, tasks, members := map[], map[], map[], map[];
    }
  }

  /** Some element of a non-empty set (stated generically, where the solver finds the witness). */
  lemma Pick<T>(s: set<T>) returns (x: T)
    requires s != {}
    ensures x in s
  {
    x :| x in s;
  }

  lemma {:induction false} LeastExists(keys: set<int>)
    requires keys != {}
    ensures exists k :: k in keys && forall j :: j in keys ==> k <= j
  {
    var x := Pick(keys);
    if keys != {x} {
      LeastExists(keys - {x});
      var m :| m in keys - {x} && forall j :: j in keys - {x} ==> m <= j;
      var least := if x < m then x else m;
      forall j | j in keys
        ensures least <= j
      {
        if j != x {
          assert j in keys - {x};
        }
      }
    } else {
      assert forall j :: j in keys ==> x <= j;
    }
  }

  /** The least key of a non-empty key set. */
  function Least(keys: set<int>): (k: int)
    requires keys != {}
    ensures k in keys
    ensures forall j :: j in keys ==> k <= j
  {
    LeastExists(keys);
    var k :| k in keys && forall j :: j in keys ==> k <= j;
    k
  }

  /**
   * The keys of a table in ascending order: the order in which this model
   * lets a whole-table scan (`ToListAsync`, `GetAllAsync`) return rows.
   */
  function Rows(keys: set<int>): (r: seq<int>)
    ensures |r| == |keys|
    ensures forall x :: x in r <==> x in keys
    ensures forall i, j :: 0 <= i < j < |r| ==> r[i] < r[j]
    decreases |keys|
  {
    if keys == {} then []
    else
      var k := Least(keys);
      var rest := Rows(keys - {k});
      assert forall i :: 0 <= i < |rest| ==> k < rest[i] by {
        forall i | 0 <= i < |rest| ensures k < rest[i] {
          assert rest[i] in keys - {k};
        }
      }
      [k] + rest
  }

  /** A LINQ `Where` over a table: the rows whose record satisfies `p`, with their keys. */
  function Where<K(!new), V>(table: map<K, V>, p: V -> bool): (r: map<K, V>)
    ensures forall k :: k in r <==> k in table && p(table[k])
    ensures forall k :: k in r ==> r[k] == table[k]
  {
    map k | k in table && p(table[k]) :: table[k]
  }

  /**
   * A LINQ `FirstOrDefaultAsync` over a table: the key of a row satisfying `p`
   * (the least such key), or `None` when no row does.
   */
  function FirstWhere<V>(table: map<int, V>, p: V -> bool): (r: Option<int>)
    ensures r.Some? ==> r.value in table && p(table[r.value])
    ensures r.None? <==> forall k :: k in table ==> !p(table[k])
  {
    var hits := Where(table, p).Keys;
    if hits == {} then None else Some(Least(hits))
  }

  /** The key an identity column gives a new row: positive and not yet used. */
  method NextId<V>(table: map<int, V>) returns (id: int)
    ensures id > 0
    ensures id !in table
  {
    id := 1;
    var rest := table.Keys;
    while rest != {}
      invariant id > 0
      invariant rest <= table.Keys
      invariant forall k :: k in table && k !in rest ==> k < id
      decreases rest
    {
      // `Pick` hands the solver an element of `rest`, so the `:|` below is known to succeed.
      ghost var element := Pick(rest);
      var k :| k in rest;
      if k >= id {
        id := k + 1;
      }
      rest := rest - {k};
    }
  }

  /** The task table after the task `id` has been given status `st` and nothing else changed. */
  function WithStatus(tasks: map<int, Task>, id: int, st: TaskStatus): (r: map<int, Task>)
    requires id in tasks
    ensures r.Keys == tasks.Keys
    ensures r[id].status == st
    ensures forall k :: k in tasks && k != id ==> r[k] == tasks[k]
  {
    tasks[id := tasks[id].(status := st)]
  }

  /** Of two status writes to the same task, the later one wins. */
  lemma WithStatusLastWriteWins(tasks: map<int, Task>, id: int, st1: TaskStatus, st2: TaskStatus)
    requires id in tasks
    ensures WithStatus(WithStatus(tasks, id, st1), id, st2) == WithStatus(tasks, id, st2)
  {
  }
}
