/**
 The state the board component (App.tsx) keeps and the handlers that change
 it: the materialised task map and the synced flag, updated by every event
 from the replicated task node; the filter fields; and the puts the handlers
 issue to the node. A put reaches the map only through its echo event (see
 `Repository.ReplaySaves`); the node itself is not part of this model.
 */
module App {
  import opened Types
  import opened Repository
  import opened Query
  import opened Transfer

  /** The three ends of the import handler: empty content (nothing happens),
      no valid task (an alert says so), or a completed import (an alert
      confirms it). */
  datatype ImportOutcome = NoContent | NothingValid | Imported(count: nat)

  /** `keys` lists every key of `m` once: the order in which `Object.values`
      walks the map. */
  ghost predicate EnumeratesKeys(keys: seq<string>, m: map<string, Task>)
  {
    && (forall i, j :: 0 <= i < j < |keys| ==> keys[i] != keys[j])
    && (forall k :: k in keys <==> k in m)
  }

  /** `Object.values(m)` when its keys are walked in the order `keys`. */
  function ValuesInOrder(m: map<string, Task>, keys: seq<string>): (ts: seq<Task>)
    requires forall k :: k in keys ==> k in m
    ensures |ts| == |keys|
    ensures forall i :: 0 <= i < |keys| ==> ts[i] == m[keys[i]]
  {
    seq(|keys|, i requires 0 <= i < |keys| => m[keys[i]])
  }

  /** The listed values are exactly the tasks of the map, one per key. */
  lemma ValuesInOrderListsMap(m: map<string, Task>, keys: seq<string>)
    requires EnumeratesKeys(keys, m)
    ensures |ValuesInOrder(m, keys)| == |m|
    ensures forall t :: t in ValuesInOrder(m, keys) <==> t in m.Values
  {
    var ts := ValuesInOrder(m, keys);
    forall t | t in m.Values ensures t in ts {
      var k :| k in m && m[k] == t;
      var i :| 0 <= i < |keys| && keys[i] == k;
      assert ts[i] == t;
    }
    DistinctCardinality(keys, m.Keys);
  }

  /** A sequence without repeats listing a set has the set's size. */
  lemma {:induction false} DistinctCardinality(keys: seq<string>, ks: set<string>)
    requires forall i, j :: 0 <= i < j < |keys| ==> keys[i] != keys[j]
    requires forall k :: k in keys <==> k in ks
    ensures |keys| == |ks|
    decreases |keys|
  {
    if keys != [] {
      var rest := keys[1..];
      assert forall k :: k in rest <==> k in ks - {keys[0]} by {
        forall k ensures k in rest <==> k in ks - {keys[0]} {
          if k in rest {
            var j :| 0 <= j < |rest| && rest[j] == k;
            assert keys[j + 1] == k;
          }
          if k in ks - {keys[0]} {
            var j :| 0 <= j < |keys| && keys[j] == k;
            assert j != 0;
            assert rest[j - 1] == k;
          }
        }
      }
      DistinctCardinality(rest, ks - {keys[0]});
    } else {
      assert forall k :: k !in ks;
      assert ks == {};
    }
  }

  class Board {
    var tasksMap: map<string, Task>
    /** Set by the first event and never cleared. */
    var isSynced: bool
    var workingWeek: string
    var filterWeek: string
    var filterArea: Choice<string>
    var filterTeam: Choice<string>
    var filterStatus: Choice<Status>
    var searchTerm: string
    /** The puts issued to the replicated task node, oldest first. */
    var outbox: seq<Put>

    function CurrentFilters(): Filters
      reads this
    {
      Filters(filterWeek, filterArea, filterTeam, filterStatus, searchTerm)
    }

    /** The board as mounted: no tasks, not synced, no filter set. */
    constructor (workingWeek: string)
      ensures tasksMap == map[] && !isSynced && outbox == []
      ensures this.workingWeek == workingWeek && CurrentFilters() == NoFilters
    {
      tasksMap := map[];
      isSynced := false;
      this.workingWeek := workingWeek;
      filterWeek := "";
      filterArea := Todos;
      filterTeam := Todos;
      filterStatus := Todos;
      searchTerm := "";
      outbox := [];
    }

    /** The `.on` handler: one event for `key`, `None` being a deletion. */
    method OnEvent(key: string, data: Option<WireTask>, decode: Decoder)
      modifies this`tasksMap, this`isSynced
      ensures tasksMap == ApplyEvent(old(tasksMap), key, data, decode)
      ensures isSynced
    {
      if data.None? {
        var newMap := tasksMap;
        newMap := newMap - {key};
        tasksMap := newMap;
      } else {
        var comments := DecodeComments(data.value.comments, decode);
        if comments.Some? {
          tasksMap := tasksMap[key := FromWire(data.value, comments.value)];
        }
        // otherwise the parse error is logged and the event dropped
      }
      isSynced := true;
    }

    /** `resetFilters(includeWeek)`: clears area, team, status and search, and
        the week as well when asked to. */
    method ResetFilters(includeWeek: bool)
      modifies this`filterArea, this`filterTeam, this`filterStatus, this`searchTerm, this`filterWeek
      ensures CurrentFilters() == if includeWeek then NoFilters else NoFilters.(week := old(filterWeek))
    {
      filterArea := Todos;
      filterTeam := Todos;
      filterStatus := Todos;
      searchTerm := "";
      if includeWeek {
        filterWeek := "";
      }
    }

    /** `handleSaveNewTask`: stores the task under its id and shows the working week. */
    method SaveNewTask(task: Task, encode: Encoder)
      modifies this`outbox, this`filterWeek
      ensures outbox == old(outbox) + [SavePut(task, encode)]
      ensures filterWeek == workingWeek
    {
      outbox := outbox + [SavePut(task, encode)];
      filterWeek := workingWeek;
    }

    /** `handleUpdateTask`: overwrites the record under the task's id. */
    method UpdateTask(task: Task, encode: Encoder)
      modifies this`outbox
      ensures outbox == old(outbox) + [SavePut(task, encode)]
    {
      outbox := outbox + [SavePut(task, encode)];
    }

    /** `handleDeleteTask`: writes null under the id. */
    method DeleteTask(id: string)
      modifies this`outbox
      ensures outbox == old(outbox) + [Put(id, None)]
    {
      outbox := outbox + [Put(id, None)];
    }

    /** `handleExport`: the download for the selected week, or for the working
        week when none is selected; nothing when neither is set. The text is
        rendered from every task of the map, unfiltered, listed in the key
        order `keys`. */
    method Export(keys: seq<string>, exportText: (string, seq<Task>) -> string) returns (d: Option<Download>)
      requires EnumeratesKeys(keys, tasksMap)
      ensures d.None? <==> filterWeek == "" && workingWeek == ""
      ensures d.Some? ==> var week := ExportWeek(filterWeek, workingWeek).value;
        d.value.fileName == ExportFileName(week) && d.value.text == exportText(week, ValuesInOrder(tasksMap, keys))
    {
      var target := ExportWeek(filterWeek, workingWeek);
      if target.None? {
        return None;
      }
      var tasks := ValuesInOrder(tasksMap, keys);
      var text := exportText(target.value, tasks);
      d := Some(Download(ExportFileName(target.value), text));
    }

    /** `reader.onload` of `handleFileChange`: one put per parsed task, in
        order and under the task's own id, then a full filter reset; nothing
        is written when the file is empty or yields no task. */
    method ImportFile(content: string, parse: string -> seq<Task>, encode: Encoder) returns (outcome: ImportOutcome)
      modifies this`outbox, this`filterArea, this`filterTeam, this`filterStatus, this`searchTerm, this`filterWeek
      ensures content == "" ==> outcome == NoContent
      ensures content != "" && parse(content) == [] ==> outcome == NothingValid
      ensures outcome.Imported? <==> content != "" && parse(content) != []
      ensures outcome.Imported? ==>
        && outcome.count == |parse(content)|
        && outbox == old(outbox) + SavePuts(parse(content), encode)
        && CurrentFilters() == NoFilters
      ensures !outcome.Imported? ==> outbox == old(outbox) && CurrentFilters() == old(CurrentFilters())
    {
      if content == "" {
        return NoContent;
      }
      var imported := parse(content);
      if |imported| == 0 {
        return NothingValid;
      }
      var i := 0;
      while i < |imported|
        invariant 0 <= i <= |imported|
        invariant outbox == old(outbox) + SavePuts(imported[..i], encode)
      {
        outbox := outbox + [SavePut(imported[i], encode)];
        assert imported[..i + 1] == imported[..i] + [imported[i]];
        i := i + 1;
      }
      assert imported[..i] == imported;
      ResetFilters(true);
      outcome := Imported(|imported|);
    }
  }
}
