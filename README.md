# Console script commands of bevy_mod_scripting, modelled in Dafny

The Lua and Rhai console examples of bevy_mod_scripting register two console
commands that attach scripts to entities and detach them again:

- `run_script <path> [entity]` loads the asset `scripts/<path>` and either
  appends a script named `<path>` to the `ScriptCollection` of an existing
  entity, replies with a failure when that entity owns no collection, or spawns
  a new entity whose collection holds just that script;
- `delete_script <name> <entity_id>` walks the entities that own a collection,
  and on the first one whose id matches removes, in place, every script with that
  name (`Vec::retain`); it replies ok exactly when the collection got shorter and
  fails when no entity matched.

The two examples (`examples/lua/console_integration.rs` and
`bevy_mod_scripting/examples/console_integration_rhai.rs`) contain the same code,
once over `ScriptCollection<LuaFile>` and once over `ScriptCollection<RhaiFile>`.
The model states it once, generic in the asset kind `F`; each member below models
both copies, and the table cites one of them (Lua lines 125-159 and 166-190
correspond to Rhai lines 112-144 and 151-175).

Files:

- `script_collection.dfy`, module `ScriptCollection`: scripts, asset handles, the
  requested asset path, and `Without`, the result of `retain(|s| s.name() != name)`,
  with its properties (membership, order, length, idempotence, undoing an attach).
- `console_commands.dfy`, module `ConsoleCommands`: the entity table as a class
  `EntityTable` whose field `entities` the two command methods update in place,
  the entity lookup `IndexOf`, and two client methods that chain the commands.

Modelling choices:

- The Bevy `Query` over entities with a `ScriptCollection` is a sequence of
  `Entity(id, scripts)` records in query order; `Valid()` says the ids are
  distinct, as entity indices of live entities are.
- The console command that `log.take()` yields is an `Option` parameter; the
  console reply is the result `NoReply | ReplyOk | ReplyFailed`.
- The asset handle is a value that records the path the asset server was asked
  to load; the asset server itself is not modelled.
- The id of the entity spawned by `commands.spawn()` is a parameter, required to
  be absent from the table; the new entity is placed after the existing ones.

The code appends without checking names, so several scripts of one collection
can share a name and `delete_script` removes every one of them; `run_script`
fails when the given entity owns no collection.

## Model

| member | source | states |
|---|---|---|
| ScriptCollection.AssetPath | examples/lua/console_integration.rs:132 | the requested asset path is `scripts/` followed by exactly the given path, so the path can be read back from it |
| ScriptCollection.Without | bevy_mod_scripting/examples/console_integration_rhai.rs:159 | `retain` by name never makes the collection longer |
| ScriptCollection.WithoutMembers | examples/lua/console_integration.rs:174 | a script is kept by `retain` if and only if it was attached and its name differs from the given one |
| ScriptCollection.WithoutRemovesAll | bevy_mod_scripting/examples/console_integration_rhai.rs:158-159 | after `retain` no script with the given name remains |
| ScriptCollection.WithoutAppend | examples/lua/console_integration.rs:173-174 | `retain` acts piecewise on a concatenation, so the kept scripts keep their original relative order |
| ScriptCollection.WithoutAbsent | bevy_mod_scripting/examples/console_integration_rhai.rs:158-166 | when no script has the given name, `retain` leaves the collection exactly as it was (the failure reply then changes nothing) |
| ScriptCollection.WithoutShrinks | examples/lua/console_integration.rs:176-183 | the length goes down, the condition for the ok reply, if and only if some attached script had the given name |
| ScriptCollection.WithoutSameLength | bevy_mod_scripting/examples/console_integration_rhai.rs:161-168 | a `retain` that keeps the length (the failure reply) removed nothing at all |
| ScriptCollection.WithoutIdempotent | examples/lua/console_integration.rs:170-183 | a second `retain` with the same name changes nothing, so a repeated delete cannot shorten the collection |
| ScriptCollection.WithoutUndoesAttach | bevy_mod_scripting/examples/console_integration_rhai.rs:126-159 | deleting by the name just attached removes the new script and its namesakes, and restores a collection that held no namesake |
| ConsoleCommands.IndexOf | examples/lua/console_integration.rs:136 | the entity lookup finds the first entity with the id, or reports that no entity has it |
| ConsoleCommands.IndexOfUnique | bevy_mod_scripting/examples/console_integration_rhai.rs:156-157 | with distinct ids, the first entity whose id matches is the only one (used by `DeleteScript` to state that the entity it changes is the only one with that id) |
| ConsoleCommands.EntityTable.RunScript | examples/lua/console_integration.rs:125-159 | no pending command: no change, no reply; existing entity: exactly one script named `path` with the handle for `scripts/path` appended at the end of its collection, all else unchanged, no reply; unknown entity id: failure reply, no change; no entity id: one new entity owning exactly that script appended, existing entities unchanged; ids stay distinct |
| ConsoleCommands.EntityTable.DeleteScript | examples/lua/console_integration.rs:166-190 | no pending command: no change, no reply; no entity with the id: failure reply, no change; otherwise only the first matching entity changes, its collection becomes the `retain` result, no script of that name is left, and the reply is ok if and only if the length went down, which is if and only if a script of that name was attached; the entity changed is the only one with that id |
| ConsoleCommands.RepeatedDelete | bevy_mod_scripting/examples/console_integration_rhai.rs:151-175 | issuing the same delete twice: the second reply is always a failure and changes nothing, so the whole final table is the first matching entity's collection minus every script of that name with all else unchanged; with no entity of that id the first reply fails and the table is unchanged; after a successful first delete no script of that name remains; after a failed first delete the table is unchanged |
| ConsoleCommands.AttachThenDelete | examples/lua/console_integration.rs:131-184 | attaching `path` to an existing entity and deleting `path` there replies nothing and then ok; the final table is the old one with that entity's collection minus every script named `path` (older namesakes included), all else unchanged, which is the old table itself when no namesake was attached |

## Left out

- Entity generations: `Entity::from_raw(e)` builds an entity of generation 0, so on a real world the lookup also fails for a live entity whose index was reused; the model identifies an entity by its index alone.
- `commands.spawn()` is deferred by Bevy until the command buffer is applied; the model adds the new entity at once, at the end of the table, and takes its id as a parameter, because the order of Bevy's query iteration and its id allocator are not part of this model.
- The asset server: `server.load` is issued on every branch of `run_script`, including the failing one; the model keeps only the handle's path and does not record load requests, hot reloading (`watch_assets`) or asset contents.
- The reply and log texts (`info!` lines, the "Deleted script" and "Could not find" messages, and the failure text that reads "did own" where "did not own" is meant): only the kind of reply is modelled.
- `Script::new` and the identifier it assigns to a script: its code is not part of this model, so a script is its name and handle.
- The `APIProvider` implementations, `trigger_on_update_lua` / `trigger_on_update_rhai`, `forward_script_err_to_console`, `MyLuaArg::to_lua`, `RhaiEventArgs::parse` and `main`: registration of interpreter callbacks that smuggle a raw world pointer, single event sends, interpreter conversion glue and app wiring.
- From `bevy_mod_scripting/src/lib.rs`: `add_script_host`, `add_api_provider`, `add_script_handler_stage` and its `_with_criteria` variant (wrappers over Bevy's app builder), `gen_documentation` (reads an environment variable and exits the process), and the priority table of its documentation, whose behaviour lives in the event-handler and host modules, which are not part of this model.
- `examples/rhai/bevy_api.rs`: world setup with floating-point components and a one-shot script run inside the Rhai engine.
