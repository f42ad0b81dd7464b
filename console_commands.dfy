/** The `run_script` and `delete_script` console commands of the Lua and Rhai
    console examples. Both examples run the same code over a collection of Lua or
    Rhai scripts; here the asset kind is the type parameter `F`. */
module ConsoleCommands {
  import opened ScriptCollection

  datatype Option<T> = None | Some(value: T)

  /** An entity that owns a script collection: its id (the entity index) and the
      scripts of its `ScriptCollection`, in attachment order. */
  datatype Entity<F> = Entity(id: u32, scripts: seq<Script<F>>)

  /** What the command sends back to the console. */
  datatype Reply = NoReply | ReplyOk | ReplyFailed

  /** `run_script <path> [entity]`. */
  datatype RunScriptCmd = RunScriptCmd(path: string, entity: Option<u32>)

  /** `delete_script <name> <entity_id>`. */
  datatype DeleteScriptCmd = DeleteScriptCmd(name: string, entityId: u32)

  /** Live entities have distinct ids. */
  ghost predicate DistinctIds<F>(entities: seq<Entity<F>>)
  {
    forall i, j :: 0 <= i < j < |entities| ==> entities[i].id != entities[j].id
  }

  /** The position of the first entity with the given id, if any. */
  function IndexOf<F>(entities: seq<Entity<F>>, id: u32): (r: Option<nat>)
    ensures r.Some? ==> r.value < |entities| && entities[r.value].id == id
    ensures r.Some? ==> forall j :: 0 <= j < r.value ==> entities[j].id != id
    ensures r.None? <==> forall j :: 0 <= j < |entities| ==> entities[j].id != id
  {
    if entities == [] then None
    else if entities[0].id == id then Some(0)
    else match IndexOf(entities[1..], id)
      case None => None
      case Some(k) => Some(k + 1)
  }

  /** With distinct ids, the entity found is the only one with that id. */
  lemma IndexOfUnique<F>(entities: seq<Entity<F>>, id: u32, j: nat)
    requires DistinctIds(entities)
    requires j < |entities| && entities[j].id == id
    ensures IndexOf(entities, id) == Some(j)
  {
  }

  /** The search depends on the ids alone: changing scripts moves no entity. */
  lemma IndexOfSameIds<F>(a: seq<Entity<F>>, b: seq<Entity<F>>, id: u32)
    requires |a| == |b|
    requires forall j :: 0 <= j < |a| ==> a[j].id == b[j].id
    ensures IndexOf(a, id) == IndexOf(b, id)
  {
  }

  /** The entities that carry a script collection of kind `F`, in query order. */
  class EntityTable<F> {
    var entities: seq<Entity<F>>

    ghost predicate Valid()
      reads this
    {
      DistinctIds(entities)
    }

    constructor (initial: seq<Entity<F>>)
      requires DistinctIds(initial)
      ensures Valid() && entities == initial
    {
      entities := initial;
    }

    /** `run_script_cmd`: attaches the script `path` to entity `entity`, or to a new
        entity when none is given. `spawnId` is the id the new entity receives. */
    method RunScript(cmd: Option<RunScriptCmd>, spawnId: u32) returns (reply: Reply)
      requires Valid()
      requires cmd.Some? && cmd.value.entity.None? ==> IndexOf(entities, spawnId).None?
      modifies this
      ensures Valid()
      // no pending command: nothing changes, nothing is said
      ensures cmd.None? ==> reply == NoReply && entities == old(entities)
      // an entity id that owns no collection: failure, nothing changes
      ensures cmd.Some? && cmd.value.entity.Some? && IndexOf(old(entities), cmd.value.entity.value).None? ==>
                reply == ReplyFailed && entities == old(entities)
      // an entity id that owns a collection: one script appended there, nothing else changes
      ensures cmd.Some? && cmd.value.entity.Some? && IndexOf(old(entities), cmd.value.entity.value).Some? ==>
                var k := IndexOf(old(entities), cmd.value.entity.value).value;
                && reply == NoReply
                && |entities| == |old(entities)|
                && entities[k].id == old(entities)[k].id
                && entities[k].scripts == old(entities)[k].scripts + [NewScript(cmd.value.path)]
                && forall j :: 0 <= j < |entities| && j != k ==> entities[j] == old(entities)[j]
      // no entity id: a new entity owning exactly the new script, after the others
      ensures cmd.Some? && cmd.value.entity.None? ==>
                && reply == NoReply
                && entities == old(entities) + [Entity(spawnId, [NewScript(cmd.value.path)])]
    {
      reply := NoReply;
      if cmd.Some? {
        var path := cmd.value.path;
        var handle: Handle<F> := Handle(AssetPath(path));
        match cmd.value.entity {
          case Some(e) =>
            var found := IndexOf(entities, e);
            if found.Some? {
              var k := found.value;
              var collection := entities[k];
              entities := entities[k := collection.(scripts := collection.scripts + [Script(path, handle)])];
            } else {
              reply := ReplyFailed;
            }
          case None =>
            entities := entities + [Entity(spawnId, [Script(path, handle)])];
        }
      }
    }

    /** `delete_script_cmd`: walks the entities in order; the first one with the
        given id loses every script of the given name, and the reply says whether
        its collection got shorter. */
    method DeleteScript(cmd: Option<DeleteScriptCmd>) returns (reply: Reply)
      requires Valid()
      modifies this
      ensures Valid()
      // no pending command: nothing changes, nothing is said
      ensures cmd.None? ==> reply == NoReply && entities == old(entities)
      // no entity with that id: failure, nothing changes
      ensures cmd.Some? && IndexOf(old(entities), cmd.value.entityId).None? ==>
                reply == ReplyFailed && entities == old(entities)
      // the first entity with that id: every script of that name is gone, the others
      // keep their order, the other entities are untouched, and the reply is ok
      // exactly when the collection got shorter, that is, when it held such a script
      ensures cmd.Some? && IndexOf(old(entities), cmd.value.entityId).Some? ==>
                var k := IndexOf(old(entities), cmd.value.entityId).value;
                && |entities| == |old(entities)|
                && entities[k].id == old(entities)[k].id
                && entities[k].scripts == Without(old(entities)[k].scripts, cmd.value.name)
                && !HasScript(entities[k].scripts, cmd.value.name)
                && (forall j :: 0 <= j < |entities| && j != k ==> entities[j] == old(entities)[j])
                && (reply == ReplyOk <==> |old(entities)[k].scripts| > |entities[k].scripts|)
                && (reply == ReplyOk <==> HasScript(old(entities)[k].scripts, cmd.value.name))
                && reply != NoReply
      // with distinct ids, the first entity with that id is the only one
      ensures cmd.Some? && IndexOf(old(entities), cmd.value.entityId).Some? ==>
                forall j :: 0 <= j < |old(entities)| && old(entities)[j].id == cmd.value.entityId ==>
                  j == IndexOf(old(entities), cmd.value.entityId).value
    {
      reply := NoReply;
      if cmd.Some? {
        var name, entityId := cmd.value.name, cmd.value.entityId;
        forall j | 0 <= j < |entities| && entities[j].id == entityId
          ensures IndexOf(entities, entityId) == Some(j)
        {
          IndexOfUnique(entities, entityId, j);
        }
        var i := 0;
        while i < |entities|
          invariant 0 <= i <= |entities|
          invariant entities == old(entities)
          invariant forall j :: 0 <= j < i ==> entities[j].id != entityId
        {
          if entities[i].id == entityId {
            var collection := entities[i];
            var oldLen := |collection.scripts|;
            entities := entities[i := collection.(scripts := Without(collection.scripts, name))];
            WithoutRemovesAll(collection.scripts, name);
            WithoutShrinks(collection.scripts, name);
            if oldLen > |entities[i].scripts| {
              reply := ReplyOk;
            } else {
              reply := ReplyFailed;
            }
            return;
          }
          i := i + 1;
        }
        reply := ReplyFailed;
      }
    }
  }

  /** Deleting the same script twice: the second attempt always fails and changes
      nothing, so the table ends as after one delete; a successful first attempt
      leaves no script of that name on the entity. */
  method RepeatedDelete<F>(table: EntityTable<F>, cmd: DeleteScriptCmd) returns (first: Reply, second: Reply)
    requires table.Valid()
    modifies table
    ensures table.Valid()
    ensures second == ReplyFailed
    ensures IndexOf(old(table.entities), cmd.entityId).None? ==>
              first == ReplyFailed && table.entities == old(table.entities)
    ensures IndexOf(old(table.entities), cmd.entityId).Some? ==>
              var k := IndexOf(old(table.entities), cmd.entityId).value;
              table.entities == old(table.entities)[k := old(table.entities)[k].(scripts := Without(old(table.entities)[k].scripts, cmd.name))]
    ensures first == ReplyOk ==>
              && IndexOf(table.entities, cmd.entityId).Some?
              && !HasScript(table.entities[IndexOf(table.entities, cmd.entityId).value].scripts, cmd.name)
    ensures first == ReplyFailed ==> table.entities == old(table.entities)
  {
    first := table.DeleteScript(Some(cmd));
    ghost var between := table.entities;
    ghost var found := IndexOf(old(table.entities), cmd.entityId);
    if found.Some? {
      ghost var k := found.value;
      assert between == old(table.entities)[k := old(table.entities)[k].(scripts := Without(old(table.entities)[k].scripts, cmd.name))];
      IndexOfSameIds(old(table.entities), between, cmd.entityId);
      WithoutIdempotent(old(table.entities)[k].scripts, cmd.name);
      if first == ReplyFailed {
        WithoutAbsent(old(table.entities)[k].scripts, cmd.name);
        assert between == old(table.entities);
      }
    }
    second := table.DeleteScript(Some(cmd));
    if found.Some? {
      IndexOfSameIds(between, table.entities, cmd.entityId);
      assert table.entities == between;
    }
  }

  /** Attaching `path` to an existing entity and then deleting `path` there: the
      delete succeeds, the entity ends with its earlier collection minus every
      script named `path`, and when it held no such script before, the table is
      back to what it was. */
  method AttachThenDelete<F>(table: EntityTable<F>, path: string, id: u32, spawnId: u32)
    returns (attached: Reply, deleted: Reply)
    requires table.Valid()
    requires IndexOf(table.entities, id).Some?
    modifies table
    ensures table.Valid()
    ensures attached == NoReply && deleted == ReplyOk
    ensures var k := IndexOf(old(table.entities), id).value;
              table.entities == old(table.entities)[k := old(table.entities)[k].(scripts := Without(old(table.entities)[k].scripts, path))]
    ensures !HasScript(old(table.entities)[IndexOf(old(table.entities), id).value].scripts, path) ==>
              table.entities == old(table.entities)
  {
    ghost var k := IndexOf(table.entities, id).value;
    attached := table.RunScript(Some(RunScriptCmd(path, Some(id))), spawnId);
    IndexOfSameIds(old(table.entities), table.entities, id);
    WithoutUndoesAttach(old(table.entities)[k].scripts, path);
    deleted := table.DeleteScript(Some(DeleteScriptCmd(path, id)));
    assert table.entities == old(table.entities)[k := old(table.entities)[k].(scripts := Without(old(table.entities)[k].scripts, path))];
    if !HasScript(old(table.entities)[k].scripts, path) {
      WithoutAbsent(old(table.entities)[k].scripts, path);
      assert table.entities[k] == old(table.entities)[k];
    }
  }
}
