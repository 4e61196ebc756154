/**
 The executor as it runs: a session whose object graph is updated in place.
 */
module MergeExecutor {
  import opened Payload
  import opened Merge

  class Session {
    const env: Env
    var graph: Graph

    constructor (env: Env, graph: Graph)
      ensures this.env == env && this.graph == graph
    {
      this.env := env;
      this.graph := graph;
    }

    /** Write every field of the payload to object `r`; false is an exception,
        after which the transaction is not committed. */
    method ApplyPayload(r: Ref, data: seq<Entry>) returns (ok: bool)
      requires graph.Valid() && r in graph.heap
      modifies this
      ensures match Apply(env, old(graph), r, data)
              case None => !ok
              case Some(h) => ok && graph == h
      decreases data, 2
    {
      hide HandleOne, HandleMany;
      for i := 0 to |data|
        invariant graph.Valid() && r in graph.heap
        invariant Apply(env, graph, r, data[i..]) == Apply(env, old(graph), r, data)
      {
        var field, value := data[i].key, data[i].value;
        assert data[i..][0] == data[i] && data[i..][1..] == data[i + 1..];
        if field == "id" && value.Null? {
          continue;
        }
        match env.FieldOf(graph.heap[r].cls, field) {
          case Some(Column(_)) =>
            graph := graph.Set(r, field, Val(value));
          case Some(Relation(target, uselist, direction)) =>
            var relType := Relation(target, uselist, direction).RelType();
            var done;
            if relType.EndsWithMany() {
              done := ApplyMany(r, field, value, target, relType);
            } else {
              done := ApplyOne(r, field, value, target);
            }
            if !done {
              return false;
            }
          case None =>
        }
      }
      assert data[|data|..] == [];
      ok := true;
    }

    method ApplyOne(r: Ref, field: string, value: Value, target: Class) returns (ok: bool)
      requires graph.Valid() && r in graph.heap
      modifies this
      ensures match HandleOne(env, old(graph), r, field, value, target)
              case None => !ok
              case Some(h) => ok && graph == h
      decreases value, 0
    {
      if !value.Dict? || CanDelete(value.entries) {
        return false;
      }
      var es := value.entries;
      var obj;
      if HasId(es) {
        var row := GetRow(graph, target, Lookup(es, "id").value);
        if row.None? {
          return false;
        }
        obj := row.value;
      } else {
        obj := New(graph.next);
        graph := graph.Create(target);
      }
      var done := ApplyPayload(obj, es);
      if !done {
        return false;
      }
      graph := graph.Set(r, field, Link(obj));
      ok := true;
    }

    method ApplyMany(r: Ref, field: string, value: Value, target: Class, relType: RelType) returns (ok: bool)
      requires graph.Valid() && r in graph.heap
      modifies this
      ensures match HandleMany(env, old(graph), r, field, value, target, relType)
              case None => !ok
              case Some(h) => ok && graph == h
      decreases value, 0
    {
      var existingList := graph.Members(r, field);
      var mergedList: seq<Ref> := [];
      if value.Truthy() {
        if !value.List? {
          return false;
        }
        var done;
        done, mergedList, existingList := MergeList(value.items, target, relType, existingList);
        if !done {
          return false;
        }
      }
      mergedList := KeepUnmentioned(mergedList, existingList);
      graph := graph.Set(r, field, Links(mergedList));
      ok := true;
    }

    /** The last loop: existing objects not referenced in the payload. */
    static method KeepUnmentioned(merged: seq<Ref>, existingList: seq<Ref>) returns (mergedList: seq<Ref>)
      ensures mergedList == Extend(merged, existingList)
    {
      mergedList := merged;
      for i := 0 to |existingList|
        invariant Extend(mergedList, existingList[i..]) == Extend(merged, existingList)
      {
        assert existingList[i..][1..] == existingList[i + 1..];
        if existingList[i] !in mergedList {
          mergedList := mergedList + [existingList[i]];
        }
      }
    }

    method MergeList(items: seq<Value>, target: Class, relType: RelType, existing: seq<Ref>)
      returns (ok: bool, mergedList: seq<Ref>, existingList: seq<Ref>)
      requires graph.Valid()
      modifies this
      ensures match MergeItems(env, old(graph), items, target, relType, [], existing)
              case None => !ok
              case Some(m) => ok && Merged(graph, mergedList, existingList) == m && Grows(old(graph), graph)
      decreases items, 0
    {
      hide FindMatch, Graph.Valid, MergeItems, Apply, Grows, Target, Remove;
      GrowsReflexive(graph);
      mergedList, existingList := [], existing;
      for i := 0 to |items|
        invariant graph.Valid() && Grows(old(graph), graph)
        invariant MergeItems(env, graph, items[i..], target, relType, mergedList, existingList)
               == MergeItems(env, old(graph), items, target, relType, [], existing)
      {
        assert items[i..][0] == items[i] && items[i..][1..] == items[i + 1..];
        ghost var entry := graph;
        MergeItemsStep(env, graph, items[i..], target, relType, mergedList, existingList);
        if !items[i].Dict? {
          ok := false;
          return;
        }
        var es := items[i].entries;
        if HasId(es) && CanDelete(es) {
          var removed := Remove(graph, GetRow(graph, target, Lookup(es, "id").value), relType, existingList);
          if removed.None? {
            ok := false;
            return;
          }
          graph, existingList := removed.value.0, removed.value.1;
        } else {
          var found := Target(env, graph, es, target, true);
          if found.None? {
            ok := false;
            return;
          }
          graph := found.value.0;
          var done := ApplyPayload(found.value.1, es);
          if !done {
            ok := false;
            return;
          }
          mergedList := mergedList + [found.value.1];
          GrowsTransitive(entry, found.value.0, graph);
        }
        GrowsTransitive(old(graph), entry, graph);
      }
      assert items[|items|..] == [];
      MergeItemsNone(env, graph, target, relType, mergedList, existingList);
      ok := true;
    }
  }
}
