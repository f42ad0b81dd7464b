/** Scripts attached to one entity, and the two ways the console commands change a
    collection: appending a script, and keeping only the scripts whose name differs
    from a given one (Rust's `Vec::retain`). */
module ScriptCollection {

  /** Rust's `u32`, the width of an entity id on the console. */
  newtype u32 = x: int | 0 <= x < 0x1_0000_0000

  /** Handle to a script asset of kind `F` (a Lua file or a Rhai file). The asset
      server hands out the handle for the asset path it was asked to load; the
      model keeps that path as the handle's identity. */
  datatype Handle<F> = Handle(assetPath: string)

  /** One script attached to an entity: its name and the handle of its source. */
  datatype Script<F> = Script(name: string, handle: Handle<F>)

  /** The directory under the asset root that the console commands load from. */
  const ScriptsDir: string := "scripts/"

  /** The asset path requested for a script given on the console as `path`. */
  function AssetPath(path: string): (r: string)
    ensures |r| == |ScriptsDir| + |path|
    ensures r[..|ScriptsDir|] == ScriptsDir && r[|ScriptsDir|..] == path
  {
    ScriptsDir + path
  }

  /** The script a console command attaches: its name is the bare `path`, while
      its handle is the one loaded from `scripts/` + `path`. */
  function NewScript<F>(path: string): Script<F>
  {
    Script(path, Handle(AssetPath(path)))
  }

  /** Some script of the collection has the given name. */
  predicate HasScript<F>(scripts: seq<Script<F>>, name: string)
  {
    exists i :: 0 <= i < |scripts| && scripts[i].name == name
  }

  /** The collection after `retain(|s| s.name() != name)`. */
  function Without<F>(scripts: seq<Script<F>>, name: string): (r: seq<Script<F>>)
    ensures |r| <= |scripts|
  {
    if scripts == [] then []
    else if scripts[0].name == name then Without(scripts[1..], name)
    else [scripts[0]] + Without(scripts[1..], name)
  }

  /** A script survives the filter exactly when it was there and has another name. */
  lemma {:induction false} WithoutMembers<F>(scripts: seq<Script<F>>, name: string, s: Script<F>)
    ensures s in Without(scripts, name) <==> s in scripts && s.name != name
  {
    if scripts != [] {
      WithoutMembers(scripts[1..], name, s);
      assert scripts == [scripts[0]] + scripts[1..];
    }
  }

  /** No script of the given name is left after the filter. */
  lemma {:induction false} WithoutRemovesAll<F>(scripts: seq<Script<F>>, name: string)
    ensures !HasScript(Without(scripts, name), name)
  {
    var r := Without(scripts, name);
    forall i | 0 <= i < |r|
      ensures r[i].name != name
    {
      WithoutMembers(scripts, name, r[i]);
    }
  }

  /** The filter works piecewise, so the kept scripts stay in their original
      relative order. */
  lemma {:induction false} WithoutAppend<F>(a: seq<Script<F>>, b: seq<Script<F>>, name: string)
    ensures Without(a + b, name) == Without(a, name) + Without(b, name)
  {
    if a == [] {
      assert a + b == b;
    } else {
      assert (a + b)[0] == a[0];
      assert (a + b)[1..] == a[1..] + b;
      WithoutAppend(a[1..], b, name);
    }
  }

  /** A collection without a script of that name passes the filter unchanged. */
  lemma {:induction false} WithoutAbsent<F>(scripts: seq<Script<F>>, name: string)
    requires !HasScript(scripts, name)
    ensures Without(scripts, name) == scripts
  {
    if scripts != [] {
      assert scripts[0].name != name;
      assert !HasScript(scripts[1..], name) by {
        forall i | 0 <= i < |scripts[1..]|
          ensures scripts[1..][i].name != name
        {
          assert scripts[1..][i] == scripts[i + 1];
        }
      }
      WithoutAbsent(scripts[1..], name);
      assert scripts == [scripts[0]] + scripts[1..];
    }
  }

  /** The filter shortens the collection exactly when a script of that name was
      attached. */
  lemma {:induction false} WithoutShrinks<F>(scripts: seq<Script<F>>, name: string)
    ensures |Without(scripts, name)| < |scripts| <==> HasScript(scripts, name)
  {
    if HasScript(scripts, name) {
      var i :| 0 <= i < |scripts| && scripts[i].name == name;
      WithoutMembers(scripts, name, scripts[i]);
      if |Without(scripts, name)| == |scripts| {
        WithoutSameLength(scripts, name);
        assert false;
      }
    } else {
      WithoutAbsent(scripts, name);
    }
  }

  /** A filter that removes nothing leaves the collection as it was. */
  lemma {:induction false} WithoutSameLength<F>(scripts: seq<Script<F>>, name: string)
    requires |Without(scripts, name)| == |scripts|
    ensures Without(scripts, name) == scripts
  {
    if scripts != [] {
      if scripts[0].name == name {
        assert false;
      }
      WithoutSameLength(scripts[1..], name);
      assert scripts == [scripts[0]] + scripts[1..];
    }
  }

  /** Filtering twice by the same name removes nothing more. */
  lemma {:induction false} WithoutIdempotent<F>(scripts: seq<Script<F>>, name: string)
    ensures Without(Without(scripts, name), name) == Without(scripts, name)
  {
    WithoutRemovesAll(scripts, name);
    WithoutAbsent(Without(scripts, name), name);
  }

  /** Removing by name undoes attaching under that name: the attached script and
      any earlier namesakes go, and a collection that held no such script is back
      to what it was. */
  lemma {:induction false} WithoutUndoesAttach<F>(scripts: seq<Script<F>>, path: string)
    ensures Without(scripts + [NewScript(path)], path) == Without(scripts, path)
    ensures !HasScript(scripts, path) ==> Without(scripts + [NewScript(path)], path) == scripts
    ensures HasScript(scripts + [NewScript(path)], path)
  {
    WithoutAppend(scripts, [NewScript(path)], path);
    assert Without([NewScript<F>(path)], path) == [];
    if !HasScript(scripts, path) {
      WithoutAbsent(scripts, path);
    }
    assert (scripts + [NewScript(path)])[|scripts|] == NewScript(path);
  }
}
