/** Background migrations: each is enqueued under a composite unique key. */
module Migrations {
  import opened Optional
  import opened TaskModel
  import opened WaitingParent
  import P = Protocol
  import T = TaskTable

  datatype Migration = Migration(addon: string, version: string, name: string)

  datatype Status = Pending | Done | Failed

  datatype Record = Record(status: Status, task: Option<TaskId>)

  function Key(m: Migration): string {
    "migration|" + m.addon + "|" + m.version + "|" + m.name
  }

  /** What the directory scan accepts: five dot-separated numbers for the version,
      letters, digits, '_' and '-' for the name. Neither contains the separator. */
  predicate Scanned(m: Migration) {
    '|' !in m.version && '|' !in m.name
  }

  lemma LastBar(x: string, u: string)
    requires '|' !in u
    ensures var s := x + "|" + u;
            s[|x|] == '|' && s[..|x|] == x && s[|x| + 1..] == u && forall i :: |x| < i < |s| ==> s[i] != '|'
  {
    var s := x + "|" + u;
    forall i | |x| < i < |s| ensures s[i] != '|' { assert s[i] == u[i - |x| - 1]; }
  }

  lemma SplitLast(x: string, u: string, y: string, v: string)
    requires x + "|" + u == y + "|" + v && '|' !in u && '|' !in v
    ensures x == y && u == v
  {
    LastBar(x, u);
    LastBar(y, v);
    assert |x| == |y|;
  }

  /** Distinct migrations have distinct keys, whatever the add-on's name. */
  lemma KeyInjective(a: Migration, b: Migration)
    requires Scanned(a) && Scanned(b)
    ensures Key(a) == Key(b) <==> a == b
  {
    if Key(a) == Key(b) {
      SplitLast("migration|" + a.addon + "|" + a.version, a.name, "migration|" + b.addon + "|" + b.version, b.name);
      SplitLast("migration|" + a.addon, a.version, "migration|" + b.addon, b.version);
      assert a.addon == ("migration|" + a.addon)[10..] && b.addon == ("migration|" + b.addon)[10..];
    }
  }

  /** Without the scan's restriction two migrations can share a key. */
  lemma UnscannedKeysCollide()
    ensures var a, b := Migration("m", "1|2", "n"), Migration("m", "1", "2|n");
            a != b && Key(a) == Key(b)
  {
    var a, b := Migration("m", "1|2", "n"), Migration("m", "1", "2|n");
    assert a.version != b.version by { assert |a.version| == 3 && |b.version| == 1; }
    assert Key(a) == "migration|m|1|2|n";
    assert Key(b) == "migration|m|1|2|n";
  }

  /** In every reachable table the active rows holding migration keys correspond to
      migrations one to one: no migration has two active tasks, and no task serves
      two migrations. */
  lemma OneActiveTaskPerMigration(steps: seq<P.Step>, a: Migration, b: Migration, i: TaskId, j: TaskId)
    requires Scanned(a) && Scanned(b)
    requires i < |P.Reach(steps).rows| && j < |P.Reach(steps).rows|
    requires P.Reach(steps).rows[i].state.Active() && P.Reach(steps).rows[i].uniqueKey == Some(Key(a))
    requires P.Reach(steps).rows[j].state.Active() && P.Reach(steps).rows[j].uniqueKey == Some(Key(b))
    ensures i == j <==> a == b
  {
    P.ReachInv(steps);
    KeyInjective(a, b);
  }

  /** The row is the only active one with this key. */
  ghost predicate OnlyHolder(rows: Table, key: string, id: TaskId) {
    forall j :: 0 <= j < |rows| && rows[j].state.Active() && rows[j].uniqueKey == Some(key) ==> j == id
  }

  class Scheduler {
    const table: T.TaskTable
    var records: map<Migration, Record>

    constructor (table: T.TaskTable)
      ensures records == map[] && this.table == table
    {
      records := map[];
      this.table := table;
    }

    /** Creates or reuses the task of a migration; false when the insert lost a race
        it cannot see the winner of, and the error propagates. */
    method EnqueueTask(m: Migration, template: Task, rival: Option<Task>, visible: bool) returns (ok: bool)
      requires m in records && P.KeysUnique(table.rows)
      requires FreshRow(template) && template.uniqueKey == Some(Key(m))
      requires rival.Some? ==> FreshRow(rival.value) && rival.value.uniqueKey == Some(Key(m))
      modifies this`records, table`rows
      ensures P.KeysUnique(table.rows)
      ensures |old(table.rows)| <= |table.rows| <= |old(table.rows)| + 1
      ensures table.rows[..|old(table.rows)|] == old(table.rows)
      ensures P.KeyFree(old(table.rows), Some(Key(m))) && rival.None? ==> table.rows == old(table.rows) + [template]
      ensures !ok <==> P.KeyFree(old(table.rows), Some(Key(m))) && rival.Some? && !visible
      ensures ok ==> m in records && records[m].status == old(records)[m].status && records[m].task.Some?
                     && var id := records[m].task.value;
                        id < |table.rows| && table.rows[id].state.Active() && table.rows[id].uniqueKey == Some(Key(m))
      ensures !ok ==> records == old(records)
      ensures forall x :: x != m && x in old(records) ==> x in records && records[x] == old(records)[x]
      ensures records.Keys == old(records).Keys
    {
      var r := table.CreateTask(template, false, rival, visible);
      if r.UniqueViolation? {
        return false;
      }
      records := records[m := records[m].(task := Some(r.id))];
      ok := true;
    }

    /** A migration that is done is left alone; any other is pending afterwards and,
        unless the insert race was lost, linked to the one active task of its key. */
    method ScheduleMigration(m: Migration, template: Task, rival: Option<Task>, visible: bool) returns (ok: bool)
      requires P.KeysUnique(table.rows)
      requires FreshRow(template) && template.uniqueKey == Some(Key(m))
      requires rival.Some? ==> FreshRow(rival.value) && rival.value.uniqueKey == Some(Key(m))
      modifies this`records, table`rows
      ensures P.KeysUnique(table.rows) && |old(table.rows)| <= |table.rows|
      ensures m in old(records) && old(records)[m].status.Done? ==>
                ok && records == old(records) && table.rows == old(table.rows)
      ensures table.rows[..|old(table.rows)|] == old(table.rows)
      ensures !(m in old(records) && old(records)[m].status.Done?) ==>
                && m in records && records[m].status.Pending?
                && (!ok <==> P.KeyFree(old(table.rows), Some(Key(m))) && rival.Some? && !visible)
                && (!ok ==> records[m].task == if m in old(records) then old(records)[m].task else None)
                && (ok ==> records[m].task.Some?
                           && var id := records[m].task.value;
                              && id < |table.rows| && table.rows[id].state.Active()
                              && table.rows[id].uniqueKey == Some(Key(m))
                              && OnlyHolder(table.rows, Key(m), id))
      ensures forall x :: x != m && x in old(records) ==> x in records && records[x] == old(records)[x]
      ensures records.Keys == old(records).Keys + {m}
    {
      if m in records {
        if records[m].status.Done? {
          return true;
        }
        records := records[m := records[m].(status := Status.Pending)];
        ok := EnqueueTask(m, template, rival, visible);
        return;
      }
      records := records[m := Record(Status.Pending, None)];
      ok := EnqueueTask(m, template, rival, visible);
    }
  }
}
