/**
 * The in-memory config store. The store operations are first stated as
 * functions from the record list before the call to the record list after it
 * (and the error returned); the class `Store` then performs them in place on
 * its record list, each method proved to agree with its function.
 */
module ConfigStore {
  import opened Wrappers
  import opened Strings
  import opened Documents

  /** A config record. `metadata` is None where Go holds a nil map. */
  datatype Config = Config(name: string, metadata: Option<map<string, Doc>>)

  datatype StoreError = ConfigNotFound | ConfigAlreadyExists

  /** What a mutating operation leaves behind: the new record list and the error it returned. */
  datatype Step = Step(db: seq<Config>, status: Outcome<StoreError>)

  /** The store's invariant: no two records share a name. */
  ghost predicate Unique(db: seq<Config>)
  {
    forall i, j :: 0 <= i < j < |db| ==> db[i].name != db[j].name
  }

  /** No record is called `n`. */
  predicate Absent(db: seq<Config>, n: string)
  {
    forall i :: 0 <= i < |db| ==> db[i].name != n
  }

  // ---------------------------------------------------------------------------
  // Lookup
  // ---------------------------------------------------------------------------

  /** The smallest index of a record called `n`, or -1 when there is none. */
  function IndexOf(db: seq<Config>, n: string): (i: int)
    ensures -1 <= i < |db|
    ensures i == -1 <==> Absent(db, n)
    ensures 0 <= i ==> db[i].name == n && forall j :: 0 <= j < i ==> db[j].name != n
  {
    if db == [] then -1
    else if db[0].name == n then 0
    else
      var k := IndexOf(db[1..], n);
      if k == -1 then -1 else k + 1
  }

  /** With unique names, the first match is the only match. */
  lemma IndexOfUnique(db: seq<Config>, i: int)
    requires Unique(db) && 0 <= i < |db|
    ensures IndexOf(db, db[i].name) == i
  {
  }

  /** The record called `n`, or ConfigNotFound. */
  function Get(db: seq<Config>, n: string): (r: Result<Config, StoreError>)
    ensures r.Failure? <==> Absent(db, n)
    ensures r.Failure? ==> r.error == ConfigNotFound
    ensures r.Success? ==> r.value.name == n && r.value in db
  {
    var i := IndexOf(db, n);
    if i >= 0 then Success(db[i]) else Failure(ConfigNotFound)
  }

  /** An empty store finds nothing. */
  lemma GetEmpty(n: string)
    ensures Get([], n) == Failure(ConfigNotFound)
  {
  }

  // ---------------------------------------------------------------------------
  // Insert
  // ---------------------------------------------------------------------------

  /** Appends `c` when its name is free; otherwise ConfigAlreadyExists and no change. */
  function Add(db: seq<Config>, c: Config): (s: Step)
    ensures s.status.Pass? <==> Absent(db, c.name)
    ensures s.status.Pass? ==> |s.db| == |db| + 1 && s.db[..|db|] == db && s.db[|db|] == c
    ensures s.status.Fail? ==> s.status.error == ConfigAlreadyExists && s.db == db
  {
    if IndexOf(db, c.name) == -1 then Step(db + [c], Pass) else Step(db, Fail(ConfigAlreadyExists))
  }

  lemma AddPreservesUnique(db: seq<Config>, c: Config)
    requires Unique(db)
    ensures Unique(Add(db, c).db)
  {
  }

  /** A successful insert is found by a following lookup. */
  lemma AddThenGet(db: seq<Config>, c: Config)
    requires Add(db, c).status.Pass?
    ensures Get(Add(db, c).db, c.name) == Success(c)
  {
  }

  /** Inserting the same name twice: the second insert fails. */
  lemma AddTwice(db: seq<Config>, c: Config)
    ensures Add(Add(db, c).db, c).status == Fail(ConfigAlreadyExists)
  {
    assert !Absent(Add(db, c).db, c.name) by {
      if Absent(db, c.name) {
        assert Add(db, c).db[|db|] == c;
      }
    }
  }

  // ---------------------------------------------------------------------------
  // Delete
  // ---------------------------------------------------------------------------

  /** Removes the first record called `n` by moving the last record into its slot; no-op when absent. */
  function Delete(db: seq<Config>, n: string): (r: seq<Config>)
    ensures Absent(db, n) ==> r == db
    ensures !Absent(db, n) ==> |r| == |db| - 1
    ensures !Absent(db, n) ==> forall j :: 0 <= j < |r| && j != IndexOf(db, n) ==> r[j] == db[j]
    ensures !Absent(db, n) && IndexOf(db, n) < |r| ==> r[IndexOf(db, n)] == db[|db| - 1]
  {
    var i := IndexOf(db, n);
    if i == -1 then db else db[i := db[|db| - 1]][..|db| - 1]
  }

  /** Deletion removes exactly the found record: the rest is the same multiset of records. */
  lemma {:induction false} DeleteRemovesExactlyOne(db: seq<Config>, n: string)
    requires !Absent(db, n)
    ensures multiset(Delete(db, n)) + multiset{db[IndexOf(db, n)]} == multiset(db)
  {
    var i, last := IndexOf(db, n), |db| - 1;
    assert db == db[..last] + [db[last]];
    if i == last {
      assert Delete(db, n) == db[..last];
    } else {
      var front, middle := db[..i], db[i + 1..last];
      assert db == front + [db[i]] + middle + [db[last]];
      assert Delete(db, n) == front + [db[last]] + middle;
      assert multiset(db) == multiset(front) + multiset{db[i]} + multiset(middle) + multiset{db[last]};
      assert multiset(Delete(db, n)) == multiset(front) + multiset{db[last]} + multiset(middle);
    }
  }

  lemma {:induction false} DeletePreservesUnique(db: seq<Config>, n: string)
    requires Unique(db)
    ensures Unique(Delete(db, n))
  {
    if !Absent(db, n) {
      var r, i, last := Delete(db, n), IndexOf(db, n), |db| - 1;
      assert forall j :: 0 <= j < |r| ==> r[j] == db[if j == i then last else j];
      forall a, b | 0 <= a < b < |r|
        ensures r[a].name != r[b].name
      {
        var a', b' := if a == i then last else a, if b == i then last else b;
        assert r[a] == db[a'] && r[b] == db[b'];
        assert a' != b';
      }
    }
  }

  /** After a delete under unique names, the name is no longer found. */
  lemma {:induction false} DeleteThenGet(db: seq<Config>, n: string)
    requires Unique(db)
    ensures Get(Delete(db, n), n) == Failure(ConfigNotFound)
  {
    if !Absent(db, n) {
      var r, i, last := Delete(db, n), IndexOf(db, n), |db| - 1;
      forall j | 0 <= j < |r|
        ensures r[j].name != n
      {
        var j' := if j == i then last else j;
        assert r[j] == db[j'] && j' != i;
      }
    }
  }

  /** Deleting twice is the same as deleting once. */
  lemma DeleteIdempotent(db: seq<Config>, n: string)
    requires Unique(db)
    ensures Delete(Delete(db, n), n) == Delete(db, n)
  {
    DeleteThenGet(db, n);
  }

  // ---------------------------------------------------------------------------
  // Replace
  // ---------------------------------------------------------------------------

  /** Replaces the first record called `c.name` wholesale by `c`; ConfigNotFound and no change when absent. */
  function Put(db: seq<Config>, c: Config): (s: Step)
    ensures s.status.Fail? <==> Absent(db, c.name)
    ensures s.status.Fail? ==> s.status.error == ConfigNotFound && s.db == db
    ensures s.status.Pass? ==> |s.db| == |db| && s.db[IndexOf(db, c.name)] == c
    ensures s.status.Pass? ==> forall j :: 0 <= j < |db| && j != IndexOf(db, c.name) ==> s.db[j] == db[j]
  {
    var i := IndexOf(db, c.name);
    if i == -1 then Step(db, Fail(ConfigNotFound)) else Step(db[i := c], Pass)
  }

  lemma PutPreservesUnique(db: seq<Config>, c: Config)
    requires Unique(db)
    ensures Unique(Put(db, c).db)
  {
  }

  /** After a successful replace, a lookup returns exactly the new record, old fields not kept. */
  lemma PutThenGet(db: seq<Config>, c: Config)
    requires Put(db, c).status.Pass?
    ensures Get(Put(db, c).db, c.name) == Success(c)
  {
  }

  // ---------------------------------------------------------------------------
  // Patch
  // ---------------------------------------------------------------------------

  /**
   * The record override merge applies to a Config: a non-empty overlay name
   * replaces the base name (an empty one is skipped); a nil overlay map leaves
   * the base metadata as it is; otherwise the overlay's members are merged
   * onto the base's (a nil base map counts as empty).
   */
  function MergeConfig(base: Config, overlay: Config): Config
  {
    Config(
      if overlay.name != "" then overlay.name else base.name,
      match overlay.metadata
      case None => base.metadata
      case Some(o) =>
        Some(MergeFields(match base.metadata case None => map[] case Some(b) => b, o)))
  }

  /**
   * The record-level merge: a non-empty overlay name replaces the stored one and an
   * empty one keeps it; a nil overlay map keeps the stored metadata; an overlay map
   * merged onto nil metadata is stored as given, and two maps are merged by
   * `MergeFields`, so the keys are exactly those of either side; a record merged
   * onto itself is unchanged.
   */
  lemma MergeConfigFields(base: Config, overlay: Config)
    ensures overlay.name != "" ==> MergeConfig(base, overlay).name == overlay.name
    ensures overlay.name == "" ==> MergeConfig(base, overlay).name == base.name
    ensures overlay.metadata == None ==> MergeConfig(base, overlay).metadata == base.metadata
    ensures base.metadata == None && overlay.metadata.Some? ==> MergeConfig(base, overlay).metadata == overlay.metadata
    ensures base.metadata.Some? && overlay.metadata.Some? ==>
      MergeConfig(base, overlay).metadata == Some(MergeFields(base.metadata.value, overlay.metadata.value))
    ensures overlay.metadata.Some? ==>
      && MergeConfig(base, overlay).metadata.Some?
      && MergeConfig(base, overlay).metadata.value.Keys ==
           (if base.metadata.Some? then base.metadata.value.Keys else {}) + overlay.metadata.value.Keys
    ensures MergeConfig(base, base) == base
  {
    if base.metadata == None && overlay.metadata.Some? {
      assert MergeFields(map[], overlay.metadata.value) == overlay.metadata.value;
    }
    if base.metadata.Some? {
      MergeSelf(Obj(base.metadata.value));
    }
  }

  /** Merges `c` into the first record called `c.name`; ConfigNotFound and no change when absent. */
  function Patch(db: seq<Config>, c: Config): (s: Step)
    ensures s.status.Fail? <==> Absent(db, c.name)
    ensures s.status.Fail? ==> s.status.error == ConfigNotFound && s.db == db
    ensures s.status.Pass? ==> |s.db| == |db|
    ensures s.status.Pass? ==> forall j :: 0 <= j < |db| && j != IndexOf(db, c.name) ==> s.db[j] == db[j]
    ensures s.status.Pass? ==> s.db[IndexOf(db, c.name)].name == c.name
    ensures s.status.Pass? ==> s.db[IndexOf(db, c.name)] == MergeConfig(db[IndexOf(db, c.name)], c)
  {
    var i := IndexOf(db, c.name);
    if i == -1 then Step(db, Fail(ConfigNotFound)) else Step(db[i := MergeConfig(db[i], c)], Pass)
  }

  lemma PatchPreservesUnique(db: seq<Config>, c: Config)
    requires Unique(db)
    ensures Unique(Patch(db, c).db)
  {
  }

  /**
   * A patch keeps every top-level metadata key the overlay does not mention,
   * gives the overlay's value to every key where either side is not an object,
   * and merges one level down where both are objects.
   */
  lemma PatchMetadata(db: seq<Config>, c: Config, k: string)
    requires Patch(db, c).status.Pass?
    ensures var before, after := db[IndexOf(db, c.name)], Patch(db, c).db[IndexOf(db, c.name)];
      && (c.metadata == None ==> after.metadata == before.metadata)
      && (c.metadata.Some? && before.metadata.Some? && k in before.metadata.value && k !in c.metadata.value ==>
            k in after.metadata.value && after.metadata.value[k] == before.metadata.value[k])
      && (c.metadata.Some? && k in c.metadata.value &&
          (before.metadata == None || k !in before.metadata.value ||
           !before.metadata.value[k].Obj? || !c.metadata.value[k].Obj?) ==>
            after.metadata.Some? && k in after.metadata.value && after.metadata.value[k] == c.metadata.value[k])
  {
  }

  /** A patch's overlay wins at every depth: the patched metadata supplies every value the overlay does. */
  lemma PatchOverlayWins(db: seq<Config>, c: Config)
    requires Patch(db, c).status.Pass? && c.metadata.Some?
    ensures var after := Patch(db, c).db[IndexOf(db, c.name)];
      after.metadata.Some? && Supplies(Obj(after.metadata.value), Obj(c.metadata.value))
  {
    var before := db[IndexOf(db, c.name)];
    var b := match before.metadata case None => map[] case Some(m) => m;
    MergeOverlayWins(Obj(b), Obj(c.metadata.value));
  }

  // ---------------------------------------------------------------------------
  // Query
  // ---------------------------------------------------------------------------

  /** The JSON form of a record, as it is marshalled: {"name": ..., "metadata": ...}; a nil map is null. */
  function ToDoc(c: Config): Doc
  {
    Obj(map["name" := Str(c.name),
             "metadata" := match c.metadata case None => Null case Some(m) => Obj(m)])
  }

  /** The marshalled record holds the name as a string under "name" and the metadata under "metadata", null when nil. */
  lemma ToDocFields(c: Config, seg: string)
    ensures Resolve(ToDoc(c), ["name"]) == Some(Str(c.name))
    ensures c.metadata == None ==> Resolve(ToDoc(c), ["metadata"]) == Some(Null)
    ensures c.metadata.Some? ==> Resolve(ToDoc(c), ["metadata"]) == Some(Obj(c.metadata.value))
    ensures seg != "name" && seg != "metadata" ==> Resolve(ToDoc(c), [seg]) == None
  {
    assert ["name"][1..] == [] && ["metadata"][1..] == [] && [seg][1..] == [];
  }

  /** `c`'s value at `path` reads as the text `value`. */
  predicate Matches(c: Config, path: seq<string>, value: string, raw: Doc -> string)
  {
    Stringify(Resolve(ToDoc(c), path), raw) == value
  }

  /** A query on the path "name" selects a record exactly when the target is its name. */
  lemma MatchesName(c: Config, value: string, raw: Doc -> string)
    ensures Matches(c, ["name"], value, raw) <==> value == c.name
  {
    ToDocFields(c, "name");
  }

  /** The records that match, in store order. */
  function Query(db: seq<Config>, path: seq<string>, value: string, raw: Doc -> string): (r: seq<Config>)
    ensures |r| <= |db|
    ensures forall c :: c in r ==> c in db && Matches(c, path, value, raw)
  {
    if db == [] then []
    else
      var last := db[|db| - 1];
      Query(db[..|db| - 1], path, value, raw) + (if Matches(last, path, value, raw) then [last] else [])
  }

  /** Every matching record is selected. */
  lemma {:induction false} QueryComplete(db: seq<Config>, path: seq<string>, value: string, raw: Doc -> string, c: Config)
    requires c in db && Matches(c, path, value, raw)
    ensures c in Query(db, path, value, raw)
  {
    var front := db[..|db| - 1];
    assert db == front + [db[|db| - 1]];
    if c != db[|db| - 1] {
      assert c in front;
      QueryComplete(front, path, value, raw, c);
    }
  }

  /** Querying one more record appends it when it matches. */
  lemma QueryStep(db: seq<Config>, i: int, path: seq<string>, value: string, raw: Doc -> string)
    requires 0 <= i < |db|
    ensures Query(db[..i + 1], path, value, raw)
         == Query(db[..i], path, value, raw) + (if Matches(db[i], path, value, raw) then [db[i]] else [])
  {
    assert db[..i + 1][..i] == db[..i];
  }

  /** A record is selected exactly when it is stored and matches. */
  lemma QueryMembership(db: seq<Config>, path: seq<string>, value: string, raw: Doc -> string)
    ensures forall c :: c in Query(db, path, value, raw) <==> c in db && Matches(c, path, value, raw)
  {
    forall c | c in db && Matches(c, path, value, raw)
      ensures c in Query(db, path, value, raw)
    {
      QueryComplete(db, path, value, raw, c);
    }
  }

  /** Selection keeps store order: querying a concatenation concatenates the results. */
  lemma {:induction false} QueryConcat(a: seq<Config>, b: seq<Config>, path: seq<string>, value: string, raw: Doc -> string)
    ensures Query(a + b, path, value, raw) == Query(a, path, value, raw) + Query(b, path, value, raw)
    decreases |b|
  {
    if b == [] {
      assert a + b == a;
    } else {
      var front, last := b[..|b| - 1], b[|b| - 1];
      var tail := if Matches(last, path, value, raw) then [last] else [];
      assert (a + b)[..|a + b| - 1] == a + front && (a + b)[|a + b| - 1] == last;
      assert Query(a + b, path, value, raw) == Query(a + front, path, value, raw) + tail;
      assert Query(b, path, value, raw) == Query(front, path, value, raw) + tail;
      QueryConcat(a, front, path, value, raw);
    }
  }

  /** A path that no record has, queried for a non-empty value, selects nothing. */
  lemma {:induction false} QueryMissingPath(db: seq<Config>, path: seq<string>, value: string, raw: Doc -> string)
    requires value != ""
    requires forall c :: c in db ==> Resolve(ToDoc(c), path) == None
    ensures Query(db, path, value, raw) == []
  {
    if db != [] {
      assert db[|db| - 1] in db;
      assert forall c :: c in db[..|db| - 1] ==> c in db;
      QueryMissingPath(db[..|db| - 1], path, value, raw);
    }
  }

  /**
   * A missing path reads as the empty string, so a query for the empty value
   * selects the records that lack the path.
   */
  lemma QueryEmptyValueSelectsMissing(db: seq<Config>, path: seq<string>, raw: Doc -> string, c: Config)
    requires c in db && Resolve(ToDoc(c), path) == None
    ensures c in Query(db, path, "", raw)
  {
    QueryComplete(db, path, "", raw, c);
  }

  /** A path under "metadata" resolves inside the record's metadata map (nowhere, for a nil map). */
  lemma {:induction false} ResolveMetadata(c: Config, p: seq<string>)
    requires c.metadata.Some?
    ensures Resolve(ToDoc(c), ["metadata"] + p) == Resolve(Obj(c.metadata.value), p)
  {
    assert (["metadata"] + p)[0] == "metadata";
    assert (["metadata"] + p)[1..] == p;
  }

  /** After a patch, a path the overlay sets to a non-object value resolves to that value. */
  lemma PatchThenResolve(db: seq<Config>, c: Config, p: seq<string>, v: Doc)
    requires Patch(db, c).status.Pass?
    requires c.metadata.Some? && Resolve(Obj(c.metadata.value), p) == Some(v) && !v.Obj?
    ensures Resolve(ToDoc(Patch(db, c).db[IndexOf(db, c.name)]), ["metadata"] + p) == Some(v)
  {
    var before := db[IndexOf(db, c.name)];
    var b := match before.metadata case None => map[] case Some(m) => m;
    MergeSetsLeaf(Obj(b), Obj(c.metadata.value), p, v);
    ResolveMetadata(Patch(db, c).db[IndexOf(db, c.name)], p);
  }

  /** After a patch, a path through the stored metadata that the overlay does not reach still resolves as before. */
  lemma PatchKeepsPath(db: seq<Config>, c: Config, p: seq<string>)
    requires Patch(db, c).status.Pass?
    requires db[IndexOf(db, c.name)].metadata.Some? && c.metadata.Some?
    requires MembersAlong(Obj(db[IndexOf(db, c.name)].metadata.value), p)
    requires LeavesAlone(Obj(c.metadata.value), p)
    ensures Resolve(ToDoc(Patch(db, c).db[IndexOf(db, c.name)]), ["metadata"] + p)
         == Resolve(ToDoc(db[IndexOf(db, c.name)]), ["metadata"] + p)
    ensures Resolve(ToDoc(db[IndexOf(db, c.name)]), ["metadata"] + p).Some?
  {
    var before := db[IndexOf(db, c.name)];
    MergeKeepsUntouched(Obj(before.metadata.value), Obj(c.metadata.value), p);
    ResolveMetadata(Patch(db, c).db[IndexOf(db, c.name)], p);
    ResolveMetadata(before, p);
  }

  // ---------------------------------------------------------------------------
  // Worked examples
  // ---------------------------------------------------------------------------

  /** The path "metadata.monitoring.enabled" splits into its three keys. */
  lemma SplitMonitoringPath()
    ensures Split("metadata.monitoring.enabled", '.') == ["metadata", "monitoring", "enabled"]
  {
    var parts := ["metadata", "monitoring", "enabled"];
    assert Join(parts, '.') == "metadata.monitoring.enabled";
    SplitJoin(parts, '.');
  }

  function Monitored(name: string, enabled: string): Config
  {
    Config(name, Some(map["monitoring" := Obj(map["enabled" := Str(enabled)])]))
  }

  /** A record whose monitoring flag is the string `enabled` matches exactly the query value `enabled`. */
  lemma MonitoredMatches(name: string, enabled: string, value: string, raw: Doc -> string)
    ensures Matches(Monitored(name, enabled), ["metadata", "monitoring", "enabled"], value, raw) <==> value == enabled
  {
    var p := ["metadata", "monitoring", "enabled"];
    var c := Monitored(name, enabled);
    var meta := Obj(c.metadata.value);
    var mon := Obj(map["enabled" := Str(enabled)]);
    assert p[1..] == ["monitoring", "enabled"] && p[1..][1..] == ["enabled"] && p[1..][1..][1..] == [];
    assert Child(ToDoc(c), "metadata") == Some(meta);
    assert Child(meta, "monitoring") == Some(mon);
    assert Child(mon, "enabled") == Some(Str(enabled));
    assert Resolve(ToDoc(c), p) == Some(Str(enabled));
  }

  /**
   * Of two records whose monitoring flag reads "true" and "false", a query of
   * "metadata.monitoring.enabled" (whose segments SplitMonitoringPath gives)
   * for "true" selects the first only, and a query for a value no record has
   * selects nothing.
   */
  lemma QueryMonitoringExample(raw: Doc -> string)
    ensures Query([Monitored("config-1", "true"), Monitored("config-2", "false")],
                  ["metadata", "monitoring", "enabled"], "true", raw) == [Monitored("config-1", "true")]
    ensures Query([Monitored("config-1", "true")], ["metadata", "monitoring", "enabled"], "false", raw) == []
  {
    var p := ["metadata", "monitoring", "enabled"];
    MonitoredMatches("config-1", "true", "true", raw);
    MonitoredMatches("config-2", "false", "true", raw);
    MonitoredMatches("config-1", "true", "false", raw);
    var db := [Monitored("config-1", "true"), Monitored("config-2", "false")];
    assert db[..1] == [db[0]] && db[..1][..0] == [];
    assert Query(db[..1], p, "true", raw) == [db[0]];
  }

  /** A query of "metadata.monitoring.grafana", a key the record lacks, selects nothing. */
  lemma QueryMissingKeyExample(raw: Doc -> string)
    ensures Query([Monitored("config-1", "true")], ["metadata", "monitoring", "grafana"], "true", raw) == []
  {
    var p := ["metadata", "monitoring", "grafana"];
    var c := Monitored("config-1", "true");
    var mon := Obj(map["enabled" := Str("true")]);
    assert p[1..] == ["monitoring", "grafana"] && p[1..][1..] == ["grafana"];
    assert Child(Obj(c.metadata.value), "monitoring") == Some(mon);
    assert Child(mon, "grafana") == None;
    assert Resolve(ToDoc(c), p) == None;
    QueryMissingPath([c], p, "true", raw);
  }

  /**
   * Patching {"monitoring": {"enabled": "true"}} with {"monitoring": {"enabled":
   * "true", "grafana": "true"}} under the same name adds the grafana flag beside
   * the kept one, and a lookup returns the merged record.
   */
  lemma PatchExample()
    ensures
      var before := Monitored("config-1", "true");
      var both := Config("config-1", Some(map["monitoring" := Obj(map["enabled" := Str("true"), "grafana" := Str("true")])]));
      Patch([before], both).status == Pass && Get(Patch([before], both).db, "config-1") == Success(both)
  {
    var before := Monitored("config-1", "true");
    var inner := map["enabled" := Str("true"), "grafana" := Str("true")];
    var both := Config("config-1", Some(map["monitoring" := Obj(inner)]));
    var merged := Merge(Obj(map["enabled" := Str("true")]), Obj(inner));
    assert merged.fields == inner;
    assert MergeFields(before.metadata.value, both.metadata.value) == both.metadata.value;
    assert MergeConfig(before, both) == both;
  }

  // ---------------------------------------------------------------------------
  // Seed data
  // ---------------------------------------------------------------------------

  /** The records the store holds at start-up. */
  function Seed(): (db: seq<Config>)
    ensures |db| == 3 && Unique(db)
  {
    [ Config("datacenter-1", Some(map[
        "monitoring" := Obj(map["enabled" := Str("true")]),
        "limits" := Obj(map["cpu" := Obj(map["enabled" := Str("true"), "value" := Str("250m")])])])),
      Config("datacenter-2", Some(map[
        "monitoring" := Obj(map["enabled" := Str("false")]),
        "limits" := Obj(map["cpu" := Obj(map["enabled" := Str("true"), "value" := Str("260m")])])])),
      Config("burger-nutrition", Some(map[
        "calories" := Int(230),
        "fats" := Obj(map["enabled" := Str("false")]),
        "carbohydrates" := Obj(map["dietary-fiber" := Str("4g"), "sugars" := Str("1g")]),
        "allergens" := Obj(map["nuts" := Str("false"), "searfood" := Str("false"), "eggs" := Str("true")])])) ]
  }

  // ---------------------------------------------------------------------------
  // The store object
  // ---------------------------------------------------------------------------

  /** The process-wide record list and the operations that read and update it in place. */
  class Store {
    var db: seq<Config>

    ghost predicate Valid()
      reads this
    {
      Unique(db)
    }

    /** The store as the process starts: the seed records. */
    constructor ()
      ensures db == Seed() && Valid()
    {
      db := Seed();
    }

    /** Linear scan for the first record called `n`: its index and true, or -1 and false. */
    method ConfigFound(n: string) returns (i: int, ok: bool)
      ensures ok ==> 0 <= i < |db| && db[i].name == n && forall j :: 0 <= j < i ==> db[j].name != n
      ensures !ok ==> i == -1 && forall j :: 0 <= j < |db| ==> db[j].name != n
      ensures i == IndexOf(db, n)
    {
      i := 0;
      while i < |db|
        invariant 0 <= i <= |db|
        invariant forall j :: 0 <= j < i ==> db[j].name != n
      {
        if db[i].name == n {
          return i, true;
        }
        i := i + 1;
      }
      return -1, false;
    }

    /** The whole record list. */
    method GetConfigs() returns (cl: seq<Config>)
      ensures cl == db
    {
      cl := db;
    }

    method GetConfig(n: string) returns (r: Result<Config, StoreError>)
      ensures r == Get(db, n)
    {
      var i, ok := ConfigFound(n);
      if ok {
        return Success(db[i]);
      }
      return Failure(ConfigNotFound);
    }

    method AddConfig(c: Config) returns (status: Outcome<StoreError>)
      modifies this
      ensures Step(db, status) == Add(old(db), c)
      ensures old(Valid()) ==> Valid()
    {
      var _, ok := ConfigFound(c.name);
      if !ok {
        db := db + [c];
        return Pass;
      }
      return Fail(ConfigAlreadyExists);
    }

    method DeleteConfig(n: string)
      modifies this
      ensures db == Delete(old(db), n)
      ensures old(Valid()) ==> Valid()
    {
      var i, ok := ConfigFound(n);
      if ok {
        db := db[i := db[|db| - 1]];
        db := db[..|db| - 1];
      }
      if old(Valid()) {
        DeletePreservesUnique(old(db), n);
      }
    }

    method PutConfig(c: Config) returns (status: Outcome<StoreError>)
      modifies this
      ensures Step(db, status) == Put(old(db), c)
      ensures old(Valid()) ==> Valid()
    {
      var i, ok := ConfigFound(c.name);
      if ok {
        db := db[i := c];
        return Pass;
      }
      return Fail(ConfigNotFound);
    }

    method PatchConfig(c: Config) returns (status: Outcome<StoreError>)
      modifies this
      ensures Step(db, status) == Patch(old(db), c)
      ensures old(Valid()) ==> Valid()
    {
      var i, ok := ConfigFound(c.name);
      if !ok {
        return Fail(ConfigNotFound);
      }
      db := db[i := MergeConfig(db[i], c)];
      return Pass;
    }

    /** The records whose value at the dotted path `key` reads as `value`, in store order. */
    method QueryConfig(key: string, value: string, raw: Doc -> string) returns (cl: seq<Config>)
      ensures cl == Query(db, Split(key, '.'), value, raw)
      ensures forall c :: c in cl <==> c in db && Matches(c, Split(key, '.'), value, raw)
    {
      var path := Split(key, '.');
      cl := [];
      var i := 0;
      while i < |db|
        invariant 0 <= i <= |db|
        invariant cl == Query(db[..i], path, value, raw)
      {
        QueryStep(db, i, path, value, raw);
        if Matches(db[i], path, value, raw) {
          cl := cl + [db[i]];
        }
        i := i + 1;
      }
      assert db[..|db|] == db;
      QueryMembership(db, path, value, raw);
    }
  }
}
